/**
  The schedule, tag, stack and import handlers (internal/web/api.go) over the
  store and the scheduler, and the boot sequence (internal/cli/serve.go).  Every
  handler finds a cron registry that tracks the rows and leaves one that does; but
  for the two deletions, it leaves the registrations of the rows it writes as a boot
  would make them, and all others as they were.  A request carries its decoded body
  and, for each database statement it issues, whether the database carries it out.
  */
module Api {
  import opened Wrappers
  import opened Models
  import opened Scheduling
  import opened Registry
  import opened ScheduleStore
  import YamlConfig
  import Text

  datatype Status = OK | Created | NoContent | BadRequest | NotFound | Conflict | InternalError

  // ---------- Tags and their schedules ----------

  /** Every tag-derived schedule has its tag, with the tag's own expressions. */
  ghost predicate TagsAgree(schedules: map<Id, Schedule>, tags: map<Id, Tag>) {
    forall id :: id in schedules ==> TagFits(schedules[id], tags)
  }

  predicate TagFits(s: Schedule, tags: map<Id, Tag>) {
    s.tagId.Some? ==>
      && s.tagId.value in tags
      && s.startCron == tags[s.tagId.value].startCron && s.stopCron == tags[s.tagId.value].stopCron
  }

  /** Tag coherence in terms of the rows' own fields. */
  lemma AgreementMeans(schedules: map<Id, Schedule>, tags: map<Id, Tag>)
    ensures TagsAgree(schedules, tags) <==> forall id :: id in schedules && schedules[id].tagId.Some? ==>
      && schedules[id].tagId.value in tags
      && schedules[id].startCron == tags[schedules[id].tagId.value].startCron
      && schedules[id].stopCron == tags[schedules[id].tagId.value].stopCron
  {
    if TagsAgree(schedules, tags) {
      forall id | id in schedules ensures TagFits(schedules[id], tags) {
      }
    }
  }

  predicate HasRow(schedules: map<Id, Schedule>, t: Id, container: string) {
    exists id :: id in schedules && schedules[id].tagId == Some(t) && schedules[id].container == container
  }

  /** The rows of tag `t` that were listed and could be written, rewritten by `f`; all other rows as they were. */
  function Rewritten(schedules: map<Id, Schedule>, t: Id, listed: Id -> bool, rowOk: Id -> bool, f: Schedule -> Schedule)
    : map<Id, Schedule>
  {
    map id | id in schedules ::
      if schedules[id].tagId == Some(t) && listed(id) && rowOk(id) then f(schedules[id]) else schedules[id]
  }

  /** Exactly the rows of the tag that were listed and could be written have these expressions, and nothing else changed. */
  ghost predicate CarryExpressions(was: map<Id, Schedule>, now: map<Id, Schedule>, t: Id, startCron: string, stopCron: string,
                                   listed: Id -> bool, rowOk: Id -> bool)
  {
    && now.Keys == was.Keys
    && forall id :: id in was ==>
         if was[id].tagId == Some(t) && listed(id) && rowOk(id)
         then now[id].startCron == startCron && now[id].stopCron == stopCron
              && now[id] == was[id].(startCron := now[id].startCron, stopCron := now[id].stopCron)
         else now[id] == was[id]
  }

  lemma RewrittenCarry(was: map<Id, Schedule>, t: Id, listed: Id -> bool, rowOk: Id -> bool, startCron: string, stopCron: string)
    ensures var now := Rewritten(was, t, listed, rowOk, (s: Schedule) => s.(startCron := startCron, stopCron := stopCron));
      CarryExpressions(was, now, t, startCron, stopCron, listed, rowOk)
  {
  }

  /** The rows of tag `t` that were listed and could be written. */
  function WrittenRows(schedules: map<Id, Schedule>, t: Id, listed: Id -> bool, rowOk: Id -> bool): set<Id> {
    set id | id in schedules && schedules[id].tagId == Some(t) && listed(id) && rowOk(id)
  }

  /** Of the first `k` listed rows, those that could be written. */
  ghost predicate WrittenUpTo(done: set<Id>, rows: seq<Schedule>, rowOk: Id -> bool, k: nat)
    requires k <= |rows|
  {
    done == set j | 0 <= j < k && rowOk(rows[j].id) :: rows[j].id
  }

  lemma NothingWritten(rows: seq<Schedule>, rowOk: Id -> bool)
    ensures WrittenUpTo({}, rows, rowOk, 0)
  {
  }

  lemma WrittenStep(done: set<Id>, rows: seq<Schedule>, rowOk: Id -> bool, k: nat)
    requires k < |rows|
    ensures WrittenUpTo(done, rows, rowOk, k) ==>
      WrittenUpTo(done + if rowOk(rows[k].id) then {rows[k].id} else {}, rows, rowOk, k + 1)
  {
  }

  lemma WrittenAreListed(schedules: map<Id, Schedule>, t: Id, rows: seq<Schedule>, listed: Id -> bool, rowOk: Id -> bool,
                         done: set<Id>)
    requires Lists(rows, schedules, t, listed)
    requires WrittenUpTo(done, rows, rowOk, |rows|)
    ensures done == WrittenRows(schedules, t, listed, rowOk)
  {
    forall id | id in WrittenRows(schedules, t, listed, rowOk) ensures id in done {
      var j :| 0 <= j < |rows| && rows[j] == schedules[id];
      assert rows[j].id == id;
    }
  }

  predicate CronChanged(was: Tag, now: Tag) { now.startCron != was.startCron || now.stopCron != was.stopCron }

  predicate TagCronChanged(tags: map<Id, Tag>, t: Id, req: Tag) { t in tags && CronChanged(tags[t], EditedTag(t, req, tags[t])) }

  /** The rows of tag `t` that a query got to. */
  function ListedRows(schedules: map<Id, Schedule>, t: Id, listed: Id -> bool): set<Id> {
    set id | id in schedules && schedules[id].tagId == Some(t) && listed(id)
  }

  /**
    What applying a tag leaves: every old row untouched, and beside them exactly
    the rows `created`, each of the tag, with the tag's expressions and flag, for a
    requested container that had no row of the tag.
    */
  ghost predicate Applied(was: map<Id, Schedule>, now: map<Id, Schedule>, tag: Tag, t: Id, containers: seq<string>,
                          created: seq<Schedule>)
  {
    && (forall id :: id in was ==> id in now && now[id] == was[id])
    && (forall id :: id in now && id !in was ==> now[id] in created)
    && |now| == |was| + |created|
    && (forall s :: s in created ==>
          && s.id in now && now[s.id] == s && s.id !in was
          && s.tagId == Some(t) && s.container in containers && !HasRow(was, t, s.container)
          && s.startCron == tag.startCron && s.stopCron == tag.stopCron && s.enabled == tag.enabled
          && Plain(s))
  }

  /** Named after its container, in no stack, and not started on demand. */
  predicate Plain(s: Schedule) {
    && s.displayName == s.container && s.stackName == "" && !s.onDemand && s.onDemandUrl == ""
    && s.idleTimeoutSec == 0 && s.startupDelaySec == 0
  }

  lemma NothingApplied(was: map<Id, Schedule>, tag: Tag, t: Id, containers: seq<string>)
    ensures Applied(was, was, tag, t, containers, [])
  {
  }

  lemma AppliedStep(was: map<Id, Schedule>, before: map<Id, Schedule>, now: map<Id, Schedule>, tag: Tag, t: Id,
                    containers: seq<string>, created: seq<Schedule>, made: Schedule)
    requires Applied(was, before, tag, t, containers, created)
    requires made.id !in before && now == before[made.id := made]
    requires made.tagId == Some(t) && made.container in containers && !HasRow(before, t, made.container)
    requires made.startCron == tag.startCron && made.stopCron == tag.stopCron && made.enabled == tag.enabled && Plain(made)
    ensures Applied(was, now, tag, t, containers, created + [made])
  {
    RowsStay(was, before, t);
  }

  /** Each container asked for is in exactly one of the two answers, and has its row. */
  ghost predicate Answered(schedules: map<Id, Schedule>, t: Id, created: seq<Schedule>, skipped: seq<string>, asked: seq<string>)
  {
    && multiset(YamlConfig.Containers(created)) + multiset(skipped) == multiset(asked)
    && (forall j :: 0 <= j < |asked| ==> HasRow(schedules, t, asked[j]))
  }

  lemma NothingAsked(schedules: map<Id, Schedule>, t: Id)
    ensures Answered(schedules, t, [], [], [])
  {
  }

  lemma AnsweredStep(was: map<Id, Schedule>, now: map<Id, Schedule>, t: Id, created: seq<Schedule>, skipped: seq<string>,
                     asked: seq<string>, made: Option<Schedule>, container: string)
    requires Answered(was, t, created, skipped, asked)
    requires made.None? ==> now == was
    requires made.Some? ==> made.value.id !in was && now == was[made.value.id := made.value] && made.value.container == container
    requires HasRow(now, t, container)
    ensures Answered(now, t, if made.Some? then created + [made.value] else created,
                     if made.Some? then skipped else skipped + [container], asked + [container])
  {
    hide HasRow;
    RowsStay(was, now, t);
    assert forall j :: 0 <= j < |asked| ==> (asked + [container])[j] == asked[j];
    if made.Some? {
      assert YamlConfig.Containers(created + [made.value]) == YamlConfig.Containers(created) + [container];
    }
  }

  /** Exactly the containers that had the tag, or one of whose inserts the database takes, have it. */
  ghost predicate AskedFor(was: map<Id, Schedule>, now: map<Id, Schedule>, t: Id, asked: seq<string>, rowOk: nat -> bool) {
    forall c :: HasRow(now, t, c) <==> HasRow(was, t, c) || AskedAndTaken(asked, rowOk, c)
  }

  predicate AskedAndTaken(asked: seq<string>, rowOk: nat -> bool, c: string) {
    exists j :: 0 <= j < |asked| && asked[j] == c && rowOk(j)
  }

  lemma NothingAskedFor(was: map<Id, Schedule>, t: Id, rowOk: nat -> bool)
    ensures AskedFor(was, was, t, [], rowOk)
  {
  }

  lemma AskedAndTakenLast(asked: seq<string>, container: string, rowOk: nat -> bool, c: string)
    ensures AskedAndTaken(asked + [container], rowOk, c) <==>
      AskedAndTaken(asked, rowOk, c) || (container == c && rowOk(|asked|))
  {
    if j :| 0 <= j < |asked| && asked[j] == c && rowOk(j) { assert (asked + [container])[j] == c; }
    if container == c && rowOk(|asked|) { assert (asked + [container])[|asked|] == c; }
  }

  lemma HasRowAfter(before: map<Id, Schedule>, now: map<Id, Schedule>, t: Id, made: Schedule)
    requires made.id !in before && now == before[made.id := made] && made.tagId == Some(t)
    ensures forall c :: HasRow(now, t, c) <==> HasRow(before, t, c) || c == made.container
  {
    RowsStay(before, now, t);
    assert now[made.id].container == made.container;
  }

  lemma AskedForStep(was: map<Id, Schedule>, before: map<Id, Schedule>, now: map<Id, Schedule>, t: Id, asked: seq<string>,
                     container: string, rowOk: nat -> bool, made: Option<Schedule>)
    requires AskedFor(was, before, t, asked, rowOk)
    requires made.Some? <==> rowOk(|asked|) && !HasRow(before, t, container)
    requires made.None? ==> now == before
    requires made.Some? ==>
      && made.value.id !in before && now == before[made.value.id := made.value]
      && made.value.tagId == Some(t) && made.value.container == container
    ensures AskedFor(was, now, t, asked + [container], rowOk)
  {
    if made.Some? { HasRowAfter(before, now, t, made.value); }
    hide HasRow, AskedAndTaken;
    forall c ensures HasRow(now, t, c) <==> HasRow(was, t, c) || AskedAndTaken(asked + [container], rowOk, c) {
      AskedAndTakenLast(asked, container, rowOk, c);
    }
  }

  /**
    Import keeps every old row, and a new one is an entry of the list: the k-th entry
    goes in under the id that follows `first` by k, or not at all.
    */
  ghost predicate Extended<T>(was: map<Id, T>, now: map<Id, T>, first: Id, list: seq<T>, numbered: (T, Id) -> T) {
    && (forall id :: id in was ==> id in now && now[id] == was[id])
    && (forall id :: id in now && id !in was ==> first <= id < first + |list| && now[id] == numbered(list[id - first], id))
  }

  function NumberedSchedule(s: Schedule, id: Id): Schedule { s.(id := id) }
  function NumberedTag(tag: Tag, id: Id): Tag { tag.(id := id) }
  function NumberedStack(st: Stack, id: Id): Stack { st.(id := id) }

  lemma OneMore<T>(was: map<Id, T>, before: map<Id, T>, first: Id, list: seq<T>, numbered: (T, Id) -> T, k: nat)
    requires Extended(was, before, first, list, numbered) && k < |list| && first + k !in was
    ensures Extended(was, before[first + k := numbered(list[k], first + k)], first, list, numbered)
  {
  }

  function TagName(tag: Tag): string { tag.name }
  function StackName(st: Stack): string { st.name }

  predicate Named<T>(rows: map<Id, T>, nameOf: T -> string, name: string) {
    exists id :: id in rows && nameOf(rows[id]) == name
  }

  /**
    The entries of a list that go in under unique names: those accepted whose name no
    old row and no earlier accepted entry has.
    */
  ghost function NewNames<T>(was: map<Id, T>, list: seq<T>, nameOf: T -> string, ok: nat -> bool): nat -> bool {
    (k: nat) => k < |list| && ok(k) && !Named(was, nameOf, nameOf(list[k])) && !NamedEarlier(list, nameOf, ok, k, nameOf(list[k]))
  }

  predicate NamedEarlier<T>(list: seq<T>, nameOf: T -> string, ok: nat -> bool, n: nat, name: string) {
    exists j :: 0 <= j < n && j < |list| && ok(j) && nameOf(list[j]) == name
  }

  /** Of the first `n` entries exactly those that `enters` says went in. */
  ghost predicate WentIn<T>(now: map<Id, T>, first: Id, list: seq<T>, enters: nat -> bool, n: nat) {
    forall id :: first <= id < first + |list| ==> (id in now <==> id < first + n && enters(id - first))
  }

  ghost predicate Entered<T>(was: map<Id, T>, now: map<Id, T>, first: Id, list: seq<T>, numbered: (T, Id) -> T,
                             enters: nat -> bool, n: nat)
  {
    Extended(was, now, first, list, numbered) && WentIn(now, first, list, enters, n)
  }

  /** The names are the old ones and those of the first `n` accepted entries. */
  ghost predicate NamesKnown<T>(was: map<Id, T>, now: map<Id, T>, list: seq<T>, nameOf: T -> string, ok: nat -> bool, n: nat) {
    forall name :: Named(now, nameOf, name) <==> Named(was, nameOf, name) || NamedEarlier(list, nameOf, ok, n, name)
  }

  lemma NoneEntered<T>(was: map<Id, T>, first: Id, list: seq<T>, numbered: (T, Id) -> T, enters: nat -> bool)
    requires forall id :: id in was ==> id < first
    ensures Entered(was, was, first, list, numbered, enters, 0)
  {
  }

  lemma NoNamesKnown<T>(was: map<Id, T>, list: seq<T>, nameOf: T -> string, ok: nat -> bool)
    ensures NamesKnown(was, was, list, nameOf, ok, 0)
  {
  }

  lemma EnteredStep<T>(was: map<Id, T>, before: map<Id, T>, now: map<Id, T>, first: Id, list: seq<T>,
                       numbered: (T, Id) -> T, enters: nat -> bool, n: nat)
    requires n < |list| && Entered(was, before, first, list, numbered, enters, n)
    requires forall id :: id in was ==> id < first
    requires now == if enters(n) then before[first + n := numbered(list[n], first + n)] else before
    ensures Entered(was, now, first, list, numbered, enters, n + 1)
  {
    if enters(n) { OneMore(was, before, first, list, numbered, n); }
    hide Extended;
    forall id | first <= id < first + |list| ensures id in now <==> id < first + n + 1 && enters(id - first) {
      if id == first + n { assert id !in before; }
    }
  }

  lemma NamedAfter<T>(rows: map<Id, T>, nameOf: T -> string, id: Id, row: T, name: string)
    requires id !in rows
    ensures Named(rows[id := row], nameOf, name) <==> Named(rows, nameOf, name) || name == nameOf(row)
  {
    var now := rows[id := row];
    if Named(rows, nameOf, name) {
      var i :| i in rows && nameOf(rows[i]) == name;
      assert nameOf(now[i]) == name;
    }
    assert nameOf(now[id]) == nameOf(row);
  }

  lemma NamedByNext<T>(list: seq<T>, nameOf: T -> string, ok: nat -> bool, n: nat, name: string)
    requires n < |list|
    ensures NamedEarlier(list, nameOf, ok, n + 1, name)
       <==> NamedEarlier(list, nameOf, ok, n, name) || (ok(n) && nameOf(list[n]) == name)
  {
  }

  /** An entry goes in exactly when it is accepted and its name is not among the present ones. */
  lemma NamesStep<T>(was: map<Id, T>, before: map<Id, T>, now: map<Id, T>, id: Id, row: T, list: seq<T>,
                     nameOf: T -> string, ok: nat -> bool, n: nat)
    requires n < |list| && NamesKnown(was, before, list, nameOf, ok, n) && id !in before
    requires nameOf(row) == nameOf(list[n])
    requires now == if ok(n) && !Named(before, nameOf, nameOf(row)) then before[id := row] else before
    ensures NewNames(was, list, nameOf, ok)(n) <==> ok(n) && !Named(before, nameOf, nameOf(row))
    ensures NamesKnown(was, now, list, nameOf, ok, n + 1)
  {
    hide Named, NamedEarlier;
    forall name ensures Named(now, nameOf, name) <==> Named(was, nameOf, name) || NamedEarlier(list, nameOf, ok, n + 1, name) {
      NamedByNext(list, nameOf, ok, n, name);
      NamedAfter(before, nameOf, id, row, name);
    }
  }

  /** No statement of a kind fails. */
  ghost predicate AllOk(ok: nat -> bool) { forall k :: ok(k) }

  lemma EachOk(ok: nat -> bool, k: nat)
    ensures AllOk(ok) ==> ok(k)
  {
  }

  lemma ScheduleStep(was: map<Id, Schedule>, before: map<Id, Schedule>, now: map<Id, Schedule>, first: Id, next: Id,
                     list: seq<Schedule>, scheduleOk: nat -> bool, n: nat)
    requires n < |list| && (forall id :: id in was ==> id < first) && next == first + n
    requires Entered(was, before, first, list, NumberedSchedule, scheduleOk, n)
    requires now == if scheduleOk(n) then before[next := NumberedSchedule(list[n], next)] else before
    ensures Entered(was, now, first, list, NumberedSchedule, scheduleOk, n + 1)
  {
    hide Entered;
    EnteredStep(was, before, now, first, list, NumberedSchedule, scheduleOk, n);
  }

  lemma TagStep(was: map<Id, Tag>, before: map<Id, Tag>, now: map<Id, Tag>, first: Id, next: Id, list: seq<Tag>,
                 tagOk: nat -> bool, n: nat, created: bool)
    requires n < |list| && (forall id :: id in was ==> id < first) && next == first + n && next !in before
    requires Entered(was, before, first, list, NumberedTag, NewNames(was, list, TagName, tagOk), n)
    requires NamesKnown(was, before, list, TagName, tagOk, n)
    requires created == (tagOk(n) && !Named(before, TagName, list[n].name))
    requires now == if created then before[next := NumberedTag(list[n], next)] else before
    ensures Entered(was, now, first, list, NumberedTag, NewNames(was, list, TagName, tagOk), n + 1)
    ensures NamesKnown(was, now, list, TagName, tagOk, n + 1)
  {
    hide Entered, NamesKnown, Named, NewNames;
    NamesStep(was, before, now, first + n, NumberedTag(list[n], first + n), list, TagName, tagOk, n);
    EnteredStep(was, before, now, first, list, NumberedTag, NewNames(was, list, TagName, tagOk), n);
  }

  lemma StackStep(was: map<Id, Stack>, before: map<Id, Stack>, now: map<Id, Stack>, first: Id, next: Id, list: seq<Stack>,
                 stackOk: nat -> bool, n: nat, created: bool)
    requires n < |list| && (forall id :: id in was ==> id < first) && next == first + n && next !in before
    requires Entered(was, before, first, list, NumberedStack, NewNames(was, list, StackName, stackOk), n)
    requires NamesKnown(was, before, list, StackName, stackOk, n)
    requires created == (stackOk(n) && !Named(before, StackName, list[n].name))
    requires now == if created then before[next := NumberedStack(list[n], next)] else before
    ensures Entered(was, now, first, list, NumberedStack, NewNames(was, list, StackName, stackOk), n + 1)
    ensures NamesKnown(was, now, list, StackName, stackOk, n + 1)
  {
    hide Entered, NamesKnown, Named, NewNames;
    NamesStep(was, before, now, first + n, NumberedStack(list[n], first + n), list, StackName, stackOk, n);
    EnteredStep(was, before, now, first, list, NumberedStack, NewNames(was, list, StackName, stackOk), n);
  }

  /** What deleting a tag leaves of the schedules. */
  function Untagged(schedules: map<Id, Schedule>, t: Id): map<Id, Schedule> {
    map id | id in schedules && schedules[id].tagId != Some(t) :: schedules[id]
  }

  /** Whether the registry lags behind on a row after a tag's listed rows were unregistered and the tag deleted, or not. */
  predicate DeletionLags(syntax: CronSyntax, was: View, t: Id, listed: Id -> bool, deleted: bool, id: Id) {
    if id in was.schedules && was.schedules[id].tagId == Some(t) then
      if deleted then !listed(id) && id in was.table
      else if listed(id) then was.Wanted(syntax, id) != []
      else id in was.Lag(syntax)
    else id in was.Lag(syntax)
  }

  /** Each registered schedule of the tag was listed if and only if the deletion succeeded. */
  ghost predicate DeletedWhatWasListed(was: View, t: Id, listed: Id -> bool, deleted: bool) {
    forall id :: id in was.schedules && was.schedules[id].tagId == Some(t) && id in was.table ==> listed(id) == deleted
  }

  lemma LagAfterTagDeletion(syntax: CronSyntax, was: View, now: View, t: Id, listed: Id -> bool, deleted: bool)
    requires Tracks(syntax, was) && was.schedules.Keys !! was.stacks.Keys
    requires now.schedules == if deleted then Untagged(was.schedules, t) else was.schedules
    requires now.stacks == was.stacks && now.nextId == was.nextId
    requires now.table == was.table - ListedRows(was.schedules, t, listed)
    ensures Tracks(syntax, now)
    ensures forall id :: id in now.Lag(syntax) <==> DeletionLags(syntax, was, t, listed, deleted, id)
    ensures now.Lag(syntax) <= was.Lag(syntax) <==> DeletedWhatWasListed(was, t, listed, deleted)
  {
    StillTracks(syntax, was, now);
    forall id ensures id in now.Lag(syntax) <==> DeletionLags(syntax, was, t, listed, deleted, id) {
      LagAt(syntax, was, id);
      LagAt(syntax, now, id);
    }
    forall id | id in was.schedules && was.schedules[id].tagId == Some(t) && id in was.table
      ensures id !in was.Lag(syntax) && (DeletionLags(syntax, was, t, listed, deleted, id) <==> listed(id) != deleted)
    {
      LagAt(syntax, was, id);
    }
    forall id | DeletionLags(syntax, was, t, listed, deleted, id) && id !in was.Lag(syntax)
      ensures id in was.schedules && was.schedules[id].tagId == Some(t) && id in was.table && listed(id) != deleted
    {
      LagAt(syntax, was, id);
    }
  }

  /** Taking registrations away, or rows that were stored, leaves a registry that tracks the rows. */
  lemma StillTracks(syntax: CronSyntax, was: View, now: View)
    requires Tracks(syntax, was) && now.nextId == was.nextId
    requires forall id: Id :: now.Stored(id) ==> was.Stored(id) && now.Wanted(syntax, id) == was.Wanted(syntax, id)
    requires forall id :: id in now.table ==> id in was.table && now.table[id] == was.table[id]
    ensures Tracks(syntax, now)
  {
    hide View.Wanted;
    assert Numbered(now) by {
      forall id: Id | now.Stored(id) ensures id < now.nextId { assert was.Stored(id); }
    }
  }

  lemma StackGone(syntax: CronSyntax, was: View, now: View, at: Id, deleted: bool)
    requires at in was.stacks && at !in was.schedules
    requires now == was.(table := was.table - {at}, stacks := if deleted then was.stacks - {at} else was.stacks)
    ensures forall id: Id :: id != at ==> now.Wanted(syntax, id) == was.Wanted(syntax, id) && (now.Stored(id) <==> was.Stored(id))
    ensures now.Stored(at) <==> !deleted
    ensures now.Wanted(syntax, at) == if deleted then [] else was.Wanted(syntax, at)
  {
  }

  /**
    Unregistering a stack makes up for its lag when it is deleted, and makes the
    registry lag behind on it when it was registered and stays stored.
    */
  lemma LagAfterStackDeletion(syntax: CronSyntax, was: View, now: View, at: Id, deleted: bool)
    requires Tracks(syntax, was) && at in was.stacks && at !in was.schedules
    requires now == was.(table := was.table - {at}, stacks := if deleted then was.stacks - {at} else was.stacks)
    ensures Tracks(syntax, now)
    ensures now.Lag(syntax) ==
      if deleted then was.Lag(syntax) - {at} else was.Lag(syntax) + if at in was.table then {at} else {}
    ensures now.Lag(syntax) <= was.Lag(syntax) <==> deleted || at !in was.table
  {
    hide View.Wanted;
    StackGone(syntax, was, now, at, deleted);
    StillTracks(syntax, was, now);
    hide View.Lag, View.Stored, Tracks;
    forall id ensures id in now.Lag(syntax) <==>
      if id == at then !deleted && (at in was.table || at in was.Lag(syntax)) else id in was.Lag(syntax)
    {
      LagAt(syntax, was, id);
      LagAt(syntax, now, id);
    }
  }

  lemma CoherentWithTag(schedules: map<Id, Schedule>, tags: map<Id, Tag>, tag: Tag)
    requires TagsAgree(schedules, tags) && tag.id !in tags
    ensures TagsAgree(schedules, tags[tag.id := tag])
  {
    forall id | id in schedules ensures TagFits(schedules[id], tags[tag.id := tag]) {
      assert TagFits(schedules[id], tags);
    }
  }

  /** The rows of a tag for a container. */
  function RowsOf(schedules: map<Id, Schedule>, t: Id, container: string): set<Id> {
    set id | id in schedules && schedules[id].tagId == Some(t) && schedules[id].container == container
  }

  lemma NoRowsOf(schedules: map<Id, Schedule>, t: Id, container: string)
    requires !HasRow(schedules, t, container)
    ensures RowsOf(schedules, t, container) == {}
  {
  }

  /** The unique index leaves one row for a tag and a container. */
  lemma OnlyRowOf(schedules: map<Id, Schedule>, t: Id, container: string, id: Id)
    requires UniquePairs(schedules)
    requires id in schedules && schedules[id].tagId == Some(t) && schedules[id].container == container
    ensures schedules - {id} == map i | i in schedules && !(schedules[i].tagId == Some(t) && schedules[i].container == container)
                                  :: schedules[i]
    ensures RowsOf(schedules, t, container) == {id}
  {
  }

  lemma CoherentWithout(schedules: map<Id, Schedule>, tags: map<Id, Tag>, id: Id)
    requires TagsAgree(schedules, tags)
    ensures TagsAgree(schedules - {id}, tags)
  {
  }

  lemma CoherentUpdate(schedules: map<Id, Schedule>, tags: map<Id, Tag>, row: Schedule)
    requires TagsAgree(schedules, tags) && row.id in schedules && row.tagId == schedules[row.id].tagId
    requires KeepsTagCron(row, schedules[row.id])
    ensures TagsAgree(schedules[row.id := row], tags)
  {
    forall id | id in schedules ensures TagFits(schedules[row.id := row][id], tags) {
      assert TagFits(schedules[id], tags);
    }
  }

  lemma CoherentWith(schedules: map<Id, Schedule>, tags: map<Id, Tag>, row: Schedule)
    requires TagsAgree(schedules, tags) && row.id !in schedules
    ensures TagsAgree(schedules[row.id := row], tags) <==> TagFits(row, tags)
  {
    if TagsAgree(schedules[row.id := row], tags) { assert TagFits(schedules[row.id := row][row.id], tags); }
  }

  /** Under a fresh id the unique index refuses exactly a container that has the tag. */
  lemma RowsByContainer(schedules: map<Id, Schedule>, row: Schedule)
    requires row.tagId.Some? && row.id !in schedules
    ensures PairTaken(schedules, row) <==> HasRow(schedules, row.tagId.value, row.container)
  {
  }

  lemma CoherentAfterDeletion(schedules: map<Id, Schedule>, tags: map<Id, Tag>, t: Id)
    requires TagsAgree(schedules, tags)
    ensures TagsAgree(Untagged(schedules, t), tags - {t})
  {
    forall id | id in Untagged(schedules, t) ensures TagFits(schedules[id], tags - {t}) {
      assert TagFits(schedules[id], tags);
    }
  }

  predicate ShareFlag(schedules: map<Id, Schedule>, t: Id, enabled: bool) {
    forall id :: id in schedules && schedules[id].tagId == Some(t) ==> schedules[id].enabled == enabled
  }

  // ---------- Request validation ----------

  predicate GoodSchedule(syntax: CronSyntax, urlParses: string -> bool, req: Schedule) {
    && req.container != ""
    && GoodScheduleUpdate(syntax, urlParses, req)
  }

  predicate GoodScheduleUpdate(syntax: CronSyntax, urlParses: string -> bool, req: Schedule) {
    && (req.onDemand || (req.startCron != "" && req.stopCron != ""))
    && (req.startCron != "" ==> syntax.parses(req.startCron))
    && (req.stopCron != "" ==> syntax.parses(req.stopCron))
    && (req.onDemand ==> req.onDemandUrl != "" && urlParses(req.onDemandUrl))
  }

  /** A tag-derived schedule keeps its expressions: they are edited through the tag. */
  predicate KeepsTagCron(req: Schedule, existing: Schedule) {
    existing.tagId.Some? ==> req.startCron == existing.startCron && req.stopCron == existing.stopCron
  }

  predicate GoodTag(syntax: CronSyntax, req: Tag) {
    && req.name != "" && req.startCron != "" && req.stopCron != ""
    && syntax.parses(req.startCron) && syntax.parses(req.stopCron)
  }

  /** The tag row an edit writes: empty expressions stand for the present ones. */
  function EditedTag(t: Id, req: Tag, was: Tag): Tag {
    req.(id := t, startCron := if req.startCron == "" then was.startCron else req.startCron,
         stopCron := if req.stopCron == "" then was.stopCron else req.stopCron)
  }

  lemma EditedTagFields(t: Id, req: Tag, was: Tag)
    ensures EditedTag(t, req, was) == Tag(t, req.name, if req.startCron == "" then was.startCron else req.startCron,
                                          if req.stopCron == "" then was.stopCron else req.stopCron, req.enabled)
  {
  }

  /** A tag edit the handler and the database take. */
  predicate TagEditTaken(syntax: CronSyntax, tags: map<Id, Tag>, t: Id, req: Tag, dbOk: bool) {
    && t in tags && dbOk
    && syntax.parses(EditedTag(t, req, tags[t]).startCron) && syntax.parses(EditedTag(t, req, tags[t]).stopCron)
    && !TagNameTaken(tags, EditedTag(t, req, tags[t]))
  }

  /** An edit of a schedule that the handler and the database take. */
  predicate ScheduleEditTaken(syntax: CronSyntax, urlParses: string -> bool, rows: map<Id, Schedule>,
                              id: Id, req: Schedule, dbOk: bool)
  {
    && id in rows && dbOk
    && GoodScheduleUpdate(syntax, urlParses, req) && KeepsTagCron(req, rows[id])
    && !PairTaken(rows, req.(id := id, tagId := rows[id].tagId))
  }

  predicate StackEditTaken(syntax: CronSyntax, stacks: map<Id, Stack>, id: Id, req: Stack, dbOk: bool) {
    id in stacks && dbOk && GoodStackUpdate(syntax, req) && !StackNameTaken(stacks, req.(id := id))
  }

  predicate GoodStackUpdate(syntax: CronSyntax, req: Stack) {
    && (req.startCron != "" ==> syntax.parses(req.startCron))
    && (req.stopCron != "" ==> syntax.parses(req.stopCron))
    && (req.onDemand ==> req.onDemandUrl != "" && req.primaryContainer != "")
  }

  predicate GoodStack(syntax: CronSyntax, req: Stack) {
    && req.name != ""
    && (req.startCron != "" || req.stopCron != "" || req.onDemand)
    && GoodStackUpdate(syntax, req)
  }

  class Server {
    const store: Store
    const sched: Scheduler
    const urlParses: string -> bool

    constructor (store: Store, sched: Scheduler, urlParses: string -> bool)
      ensures this.store == store && this.sched == sched && this.urlParses == urlParses
    {
      this.store, this.sched, this.urlParses := store, sched, urlParses;
    }

    /** The registry is consistent and equals what a boot from the present rows would register. */
    ghost predicate Ready()
      reads store, sched
    {
      && store.Valid() && sched.Valid()
      && sched.Table() == Demand(sched.syntax, store.schedules, store.stacks)
    }

    ghost function Present(): View
      requires sched.Valid()
      reads store, sched
    {
      View(store.schedules, store.stacks, store.nextId, sched.Table())
    }

    /** What holds at every moment: every live entry has one owner, and the registry tracks the rows. */
    ghost predicate Sound()
      reads store, sched
    {
      store.Valid() && sched.Valid() && Tracks(sched.syntax, Present())
    }

    /** The rows for which the registry is not what a boot from the present rows would make it. */
    ghost function Lagging(): set<Id>
      requires sched.Valid()
      reads store, sched
    {
      Present().Lag(sched.syntax)
    }

    /** The registrations of `touched` are what they should be, and all others and the rows behind them are as they were. */
    ghost predicate CaughtUp(was: View, touched: set<Id>)
      reads store, sched
    {
      Sound() && Reached(sched.syntax, was, Present(), touched)
    }

    lemma ReadyWithoutLag()
      requires store.Valid() && sched.Valid()
      ensures Ready() <==> Sound() && Lagging() == {}
    {
      var v := Present();
      assert Numbered(v);
      if Ready() { RebuiltTracks(sched.syntax, v); }
      if Sound() { EqualOffLag(sched.syntax, v); }
    }

    /** What a request that catches up does to the registry. */
    lemma Followed(r: Request, was: Moment)
      requires !r.DeleteTag? && !r.DeleteStack?
      requires CaughtUp(was.Seen(), Written(sched.syntax, urlParses, r, was.rows, store.nextId))
      ensures store.Valid() && sched.Valid() && Sound()
      ensures RegistryStepped(sched.syntax, urlParses, r, was, Captured())
    {
      hide Consistent, TableOf, CatchesUp, View.Lag, Tracks, Written;
    }

    lemma SoundNow()
      requires Sound()
      ensures store.Valid() && sched.Valid()
    {
    }

    lemma ReadyNow()
      requires Ready()
      ensures store.Valid() && sched.Valid()
    {
    }

    /** With no lag before, catching up leaves none. */
    lemma StaysReady(was: View, touched: set<Id>)
      requires CaughtUp(was, touched)
      ensures was.Lag(sched.syntax) == {} ==> Ready()
    {
      ReadyWithoutLag();
    }

    lemma Caught(was: View, touched: set<Id>)
      requires Tracks(sched.syntax, was) && store.Valid() && sched.Valid() && was.nextId <= store.nextId
      requires CatchesUp(sched.syntax, was, Present(), touched)
      requires forall id :: id in touched ==> id < store.nextId
      ensures CaughtUp(was, touched)
    {
      assert Numbered(Present());
      hide CatchesUp, Tracks, Numbered, Consistent, TableOf, View.Lag;
      LagAfterCatchingUp(sched.syntax, was, Present(), touched);
    }

    /** Neither rows nor registry changed. */
    lemma NothingMoved(was: View)
      requires Tracks(sched.syntax, was) && store.Valid() && sched.Valid() && was.nextId <= store.nextId
      requires store.schedules == was.schedules && store.stacks == was.stacks && sched.Table() == was.table
      ensures CaughtUp(was, {})
    {
      NothingToCatchUp(sched.syntax, was, Present());
      Caught(was, {});
    }

    /** The row at `at` was written or removed, and whatever was registered for it was replaced. */
    lemma RowReplaced(was: View, at: Id)
      requires Tracks(sched.syntax, was) && store.Valid() && sched.Valid() && was.nextId <= store.nextId && at < store.nextId
      requires store.schedules - {at} == was.schedules - {at} && store.stacks - {at} == was.stacks - {at}
      requires sched.Table() == Put(was.table - {at}, at, Present().Wanted(sched.syntax, at))
      ensures CaughtUp(was, {at})
    {
      RowCatchesUp(sched.syntax, was, Present(), at);
      Caught(was, {at});
    }

    /** An id was drawn; a row went in under it or not, and its registrations were added. */
    lemma RowAdded(was: View)
      requires Tracks(sched.syntax, was) && store.Valid() && sched.Valid() && store.nextId == was.nextId + 1
      requires store.schedules - {was.nextId} == was.schedules - {was.nextId}
      requires store.stacks - {was.nextId} == was.stacks - {was.nextId}
      requires sched.Table() == Put(was.table, was.nextId, Present().Wanted(sched.syntax, was.nextId))
      ensures CaughtUp(was, Fresh(was.nextId, store.nextId))
    {
      var n := was.nextId;
      OwnsNothing(sched.syntax, was, n);
      RowReplaced(was, n);
      assert Fresh(n, n + 1) == {n};
    }

    /** Before anything has happened. */
    lemma AtRest()
      requires Sound()
      ensures store.Valid() && sched.Valid()
      ensures CaughtUp(Present(), {}) && CaughtUp(Present(), Fresh(store.nextId, store.nextId))
      ensures Tracks(sched.syntax, Present())
      ensures forall id :: id in store.schedules || id in store.tags || id in store.stacks ==> id < store.nextId
    {
      NothingMoved(Present());
      assert Fresh(store.nextId, store.nextId) == {};
    }

    /** A row that keeps its tag and container is not refused by the unique index. */
    lemma OwnUpdateFits()
      requires store.Valid()
      ensures forall id :: id in store.schedules ==> store.schedules[id].id == id
      ensures forall row: Schedule ::
        (&& row.id in store.schedules && row.tagId == store.schedules[row.id].tagId
         && row.container == store.schedules[row.id].container) ==> !PairTaken(store.schedules, row)
    {
    }

    lemma UniqueRows()
      requires store.Valid()
      ensures UniquePairs(store.schedules)
    {
    }

    lemma SoFar(was: View, touched: set<Id>)
      requires CaughtUp(was, touched)
      ensures store.Valid() && sched.Valid() && Sound() && Reached(sched.syntax, was, Present(), touched)
    {
    }

    /** One change after another. */
    lemma CaughtUpTwice(was: View, first: set<Id>, between: View, after: set<Id>)
      requires Reached(sched.syntax, was, between, first) && CaughtUp(between, after)
      ensures CaughtUp(was, first + after)
    {
      CatchesUpTwice(sched.syntax, was, between, Present(), first, after);
    }

    /** One stretch of new ids after another. */
    lemma FreshTwice(was: View, between: View)
      requires was.nextId <= between.nextId <= store.nextId
      requires Reached(sched.syntax, was, between, Fresh(was.nextId, between.nextId))
      requires CaughtUp(between, Fresh(between.nextId, store.nextId))
      ensures CaughtUp(was, Fresh(was.nextId, store.nextId))
    {
      CaughtUpTwice(was, Fresh(was.nextId, between.nextId), between, Fresh(between.nextId, store.nextId));
      assert Fresh(was.nextId, between.nextId) + Fresh(between.nextId, store.nextId) == Fresh(was.nextId, store.nextId);
    }

    ghost predicate Coherent()
      reads store
    {
      TagsAgree(store.schedules, store.tags)
    }

    ghost predicate SameRows(schedules: map<Id, Schedule>, tags: map<Id, Tag>, stacks: map<Id, Stack>)
      reads store
    {
      store.schedules == schedules && store.tags == tags && store.stacks == stacks
    }

    ghost function Captured(): Moment
      requires sched.Valid()
      reads store, sched
    {
      Moment(Stored(), sched.Table(), sched.entries)
    }

    /** What fires at this moment is what the stored rows ask for. */
    lemma FiresNow()
      requires Sound()
      ensures store.Valid() && sched.Valid()
      ensures FiresAsStored(Captured()) && StoredRowsFire(sched.syntax, Captured())
    {
      LiveEntries(sched.jobs, sched.entries, sched.nextEntry);
      hide Consistent, TableOf, Tracks, View.Lag, View.Held, EntryFits, Owner, Due, Live;
      var m := Captured();
      var v := Present();
      assert Keyed(v) && m.Seen() == v;
      forall e | e in m.entries ensures EntryFits(v.schedules, v.stacks, m.entries[e]) {
        RegisteredFit(sched.syntax, v, m.entries[e]);
      }
      RegisteredRowsFire(sched.syntax, m);
    }

    ghost function Stored(): Rows
      reads store
    {
      Rows(store.schedules, store.tags, store.stacks, store.nextId)
    }

    /** Remove, then add again when enabled: how a handler re-registers a schedule. */
    method Reregister(s: Schedule)
      requires sched.Valid()
      modifies sched
      ensures sched.Valid()
      ensures sched.Table() == Put(old(sched.Table()) - {s.id}, s.id, ScheduleEntries(sched.syntax, s))
    {
      sched.RemoveSchedule(s.id);
      assert s.id !in sched.Table();
      if s.enabled { var _ := sched.AddSchedule(s); }
    }

    // ---------- Adding rows ----------

    /** The tail of the handlers that add a schedule: insert the row and, when it is enabled, register it. */
    method InsertSchedule(req: Schedule, dbOk: bool, ghost start: View) returns (created: Option<Schedule>)
      requires CaughtUp(start, Fresh(start.nextId, store.nextId)) && start.nextId <= store.nextId
      modifies store`schedules, store`nextId, sched
      ensures CaughtUp(start, Fresh(start.nextId, store.nextId))
      ensures store.nextId == old(store.nextId) + 1 && old(store.nextId) !in old(store.schedules)
      ensures created.Some? <==> dbOk && !PairTaken(old(store.schedules), req.(id := old(store.nextId)))
      ensures created.Some? ==> created.value == req.(id := old(store.nextId))
      ensures store.schedules ==
        if created.Some? then old(store.schedules)[old(store.nextId) := created.value] else old(store.schedules)
    {
      hide Consistent, TableOf, Tracks, Server.CaughtUp, View.Lag, View.Held, Demand, Reached, CatchesUp, Numbered, Fresh;
      SoFar(start, Fresh(start.nextId, store.nextId));
      ghost var was := Present();
      OwnsNothing(sched.syntax, was, was.nextId);
      created := store.CreateSchedule(req, dbOk);
      assert store.schedules - {was.nextId} == was.schedules - {was.nextId};
      if created.Some? && created.value.enabled { var _ := sched.AddSchedule(created.value); }
      assert Present().Wanted(sched.syntax, was.nextId) ==
        if created.Some? then ScheduleEntries(sched.syntax, created.value) else [];
      hide View.Wanted, ScheduleEntries;
      RowAdded(was);
      FreshTwice(start, was);
    }

    method InsertStack(req: Stack, dbOk: bool, ghost start: View) returns (created: Option<Stack>)
      requires CaughtUp(start, Fresh(start.nextId, store.nextId)) && start.nextId <= store.nextId
      modifies store`stacks, store`nextId, sched
      ensures CaughtUp(start, Fresh(start.nextId, store.nextId))
      ensures store.nextId == old(store.nextId) + 1 && old(store.nextId) !in old(store.stacks)
      ensures created.Some? <==> dbOk && !StackNameTaken(old(store.stacks), req.(id := old(store.nextId)))
      ensures created.Some? ==> created.value == req.(id := old(store.nextId))
      ensures store.stacks ==
        if created.Some? then old(store.stacks)[old(store.nextId) := created.value] else old(store.stacks)
    {
      hide Consistent, TableOf, Tracks, Server.CaughtUp, View.Lag, View.Held, Demand, Reached, CatchesUp, Numbered, Fresh;
      SoFar(start, Fresh(start.nextId, store.nextId));
      ghost var was := Present();
      OwnsNothing(sched.syntax, was, was.nextId);
      created := store.CreateStack(req, dbOk);
      assert store.stacks - {was.nextId} == was.stacks - {was.nextId};
      if created.Some? && created.value.enabled { var _ := sched.AddStack(created.value); }
      assert Present().Wanted(sched.syntax, was.nextId) ==
        if created.Some? then StackEntries(sched.syntax, created.value) else [];
      hide View.Wanted, StackEntries;
      RowAdded(was);
      FreshTwice(start, was);
    }

    method InsertTag(req: Tag, dbOk: bool, ghost start: View) returns (created: Option<Tag>)
      requires CaughtUp(start, Fresh(start.nextId, store.nextId)) && start.nextId <= store.nextId
      modifies store`tags, store`nextId
      ensures CaughtUp(start, Fresh(start.nextId, store.nextId))
      ensures store.nextId == old(store.nextId) + 1 && old(store.nextId) !in old(store.tags)
      ensures created.Some? <==> dbOk && !TagNameTaken(old(store.tags), req.(id := old(store.nextId)))
      ensures created.Some? ==> created.value == req.(id := old(store.nextId))
      ensures store.tags == if created.Some? then old(store.tags)[old(store.nextId) := created.value] else old(store.tags)
    {
      hide Consistent, TableOf, Tracks, Server.CaughtUp, View.Lag, View.Held, Demand, Reached, CatchesUp, Numbered, Fresh;
      SoFar(start, Fresh(start.nextId, store.nextId));
      ghost var was := Present();
      OwnsNothing(sched.syntax, was, was.nextId);
      created := store.CreateTag(req, dbOk);
      RowAdded(was);
      FreshTwice(start, was);
    }

    // ---------- Schedules ----------

    method CreateSchedule(req: Schedule, dbOk: bool) returns (status: Status)
      requires Sound()
      modifies store, sched
      ensures store.nextId >= old(store.nextId)
      ensures CaughtUp(old(Present()), Fresh(old(store.nextId), store.nextId))
      ensures status == BadRequest <==>
        || req.container == ""
        || (!req.onDemand && (req.startCron == "" || req.stopCron == ""))
        || (req.startCron != "" && !sched.syntax.parses(req.startCron))
        || (req.stopCron != "" && !sched.syntax.parses(req.stopCron))
        || (req.onDemand && (req.onDemandUrl == "" || !urlParses(req.onDemandUrl)))
      ensures status == Created <==>
        (GoodSchedule(sched.syntax, urlParses, req) && dbOk && !PairTaken(old(store.schedules), req.(id := old(store.nextId))))
      ensures status != Created ==> SameRows(old(store.schedules), old(store.tags), old(store.stacks))
      ensures status == Created ==>
        SameRows(old(store.schedules)[old(store.nextId) := req.(id := old(store.nextId))], old(store.tags), old(store.stacks))
      ensures old(Coherent()) ==> (Coherent() <==> status != Created || TagFits(req, store.tags))
    {
      hide Server.Sound, Server.CaughtUp, Store.Valid, Scheduler.Valid, Scheduler.Table, Reached, Fresh;
      hide PairTaken, TagsAgree;
      AtRest();
      ghost var start := Present();
      if req.container == "" { return BadRequest; }
      if !req.onDemand && (req.startCron == "" || req.stopCron == "") { return BadRequest; }
      if req.startCron != "" && !sched.syntax.parses(req.startCron) { return BadRequest; }
      if req.stopCron != "" && !sched.syntax.parses(req.stopCron) { return BadRequest; }
      if req.onDemand {
        if req.onDemandUrl == "" || !urlParses(req.onDemandUrl) { return BadRequest; }
      }
      var created := InsertSchedule(req, dbOk, start);
      if created.None? { return InternalError; }
      if old(Coherent()) { CoherentWith(old(store.schedules), store.tags, created.value); }
      status := Created;
    }

    method UpdateSchedule(id: Id, req: Schedule, dbOk: bool) returns (status: Status)
      requires Sound()
      modifies store, sched
      ensures store.nextId >= old(store.nextId)
      ensures CaughtUp(old(Present()), if status == OK then {id} else {})
      ensures status == NotFound <==> id !in old(store.schedules)
      ensures status == OK <==> ScheduleEditTaken(sched.syntax, urlParses, old(store.schedules), id, req, dbOk)
      ensures status == BadRequest <==>
        && id in old(store.schedules)
        && (|| (old(store.schedules)[id].tagId.Some?
                && (req.startCron != old(store.schedules)[id].startCron || req.stopCron != old(store.schedules)[id].stopCron))
            || (!req.onDemand && (req.startCron == "" || req.stopCron == ""))
            || (req.startCron != "" && !sched.syntax.parses(req.startCron))
            || (req.stopCron != "" && !sched.syntax.parses(req.stopCron))
            || (req.onDemand && (req.onDemandUrl == "" || !urlParses(req.onDemandUrl))))
      ensures status == OK ==>
        SameRows(old(store.schedules)[id := req.(id := id, tagId := old(store.schedules)[id].tagId)],
                 old(store.tags), old(store.stacks))
      ensures status != OK ==> SameRows(old(store.schedules), old(store.tags), old(store.stacks))
      ensures old(Coherent()) ==> Coherent()
    {
      hide Server.Sound, Server.CaughtUp, Store.Valid, Scheduler.Valid, Scheduler.Table,
        Tracks, Reached, Fresh, TagsAgree, PairTaken;
      AtRest();
      ghost var was := Present();
      if id !in store.schedules { return NotFound; }
      var existing := store.schedules[id];
      var row := req.(id := id, tagId := existing.tagId);
      if row.tagId.Some? && (row.startCron != existing.startCron || row.stopCron != existing.stopCron) { return BadRequest; }
      if !row.onDemand && (row.startCron == "" || row.stopCron == "") { return BadRequest; }
      if row.startCron != "" && !sched.syntax.parses(row.startCron) { return BadRequest; }
      if row.stopCron != "" && !sched.syntax.parses(row.stopCron) { return BadRequest; }
      if row.onDemand {
        if row.onDemandUrl == "" || !urlParses(row.onDemandUrl) { return BadRequest; }
      }
      var ok := store.UpdateSchedule(row, dbOk);
      if !ok { return InternalError; }
      Reregister(row);
      RowReplaced(was, id);
      if old(Coherent()) { CoherentUpdate(old(store.schedules), store.tags, row); }
      status := OK;
    }

    method DeleteSchedule(id: Id, dbOk: bool) returns (status: Status)
      requires Sound()
      modifies store, sched
      ensures store.nextId >= old(store.nextId)
      ensures CaughtUp(old(Present()), if status == NoContent then {id} else {})
      ensures status == NoContent <==> id in old(store.schedules) && dbOk
      ensures status == NoContent ==> SameRows(old(store.schedules) - {id}, old(store.tags), old(store.stacks))
      ensures status != NoContent ==> SameRows(old(store.schedules), old(store.tags), old(store.stacks))
      ensures old(Coherent()) ==> Coherent()
    {
      hide Consistent, TableOf, Tracks, Server.CaughtUp, View.Lag, View.Held, Demand, Reached, CatchesUp, Numbered, Fresh;
      ghost var was := Present();
      NothingMoved(was);
      if id !in store.schedules { return NotFound; }
      var ok := store.DeleteSchedule(id, dbOk);
      if !ok { return NotFound; }
      sched.RemoveSchedule(id);
      RowReplaced(was, id);
      status := NoContent;
    }

    method ToggleSchedule(id: Id, dbOk: bool) returns (status: Status)
      requires Sound()
      modifies store, sched
      ensures store.nextId >= old(store.nextId)
      ensures CaughtUp(old(Present()), if status == OK then {id} else {})
      ensures status == OK <==> id in old(store.schedules) && dbOk
      ensures status == OK ==>
        SameRows(old(store.schedules)[id := old(store.schedules)[id].(enabled := !old(store.schedules)[id].enabled)],
                 old(store.tags), old(store.stacks))
      ensures status != OK ==> SameRows(old(store.schedules), old(store.tags), old(store.stacks))
      ensures old(Coherent()) ==> Coherent()
    {
      hide Server.Sound, Server.CaughtUp, Store.Valid, Scheduler.Valid, Scheduler.Table, Tracks, Reached, Fresh, TagsAgree;
      AtRest();
      OwnUpdateFits();
      ghost var was := Present();
      if id !in store.schedules { return NotFound; }
      var toggled := store.schedules[id].(enabled := !store.schedules[id].enabled);
      var ok := store.UpdateSchedule(toggled, dbOk);
      if !ok { return NotFound; }
      if old(Coherent()) { CoherentUpdate(old(store.schedules), store.tags, toggled); }
      Reregister(toggled);
      RowReplaced(was, id);
      status := OK;
    }

    // ---------- Tags ----------

    method CreateTag(req: Tag, dbOk: bool) returns (status: Status)
      requires Sound()
      modifies store
      ensures store.nextId >= old(store.nextId)
      ensures CaughtUp(old(Present()), Fresh(old(store.nextId), store.nextId))
      ensures var row := req.(id := old(store.nextId), name := Text.TrimSpace(req.name));
        && (status == BadRequest <==>
              row.name == "" || req.startCron == "" || req.stopCron == ""
              || !sched.syntax.parses(req.startCron) || !sched.syntax.parses(req.stopCron))
        && (status == Created <==> GoodTag(sched.syntax, row) && dbOk && !TagNameTaken(old(store.tags), row))
        && (status == Created ==> SameRows(old(store.schedules), old(store.tags)[row.id := row], old(store.stacks)))
      ensures status != Created ==> SameRows(old(store.schedules), old(store.tags), old(store.stacks))
      ensures old(Coherent()) ==> Coherent()
    {
      hide Server.Sound, Server.CaughtUp, Store.Valid, Scheduler.Valid, Scheduler.Table, Reached, Fresh;
      hide TagNameTaken;
      AtRest();
      ghost var start := Present();
      var name := Text.TrimSpace(req.name);
      if name == "" { return BadRequest; }
      if req.startCron == "" || req.stopCron == "" { return BadRequest; }
      if !sched.syntax.parses(req.startCron) || !sched.syntax.parses(req.stopCron) { return BadRequest; }
      IdsBelow();
      var created := InsertTag(req.(name := name), dbOk, start);
      if created.None? { return if dbOk then Conflict else InternalError; }
      status := Created;
    }

    /** One round of the tag handlers' loop: write a listed row and re-register it when it was written. */
    method RewriteRow(listed: Schedule, row: Schedule, dbOk: bool)
      requires Sound() && listed.id in store.schedules && store.schedules[listed.id] == listed
      requires row.id == listed.id && row.tagId == listed.tagId && row.container == listed.container
      modifies store`schedules, sched
      ensures CaughtUp(old(Present()), if dbOk then {row.id} else {})
      ensures store.schedules == if dbOk then old(store.schedules)[row.id := row] else old(store.schedules)
    {
      hide Consistent, TableOf, Tracks, Server.CaughtUp, View.Lag, View.Held, Demand, Reached, CatchesUp, Numbered, Fresh;
      ghost var was := Present();
      NothingMoved(was);
      var ok := store.UpdateSchedule(row, dbOk);
      if ok {
        Reregister(row);
        RowReplaced(was, row.id);
      }
    }

    /** The loop of the tag handlers over the listed rows of a tag. */
    method RewriteTagRows(t: Id, rows: seq<Schedule>, listed: Id -> bool, rowOk: Id -> bool, f: Schedule -> Schedule)
      requires Sound() && Lists(rows, store.schedules, t, listed)
      requires forall s :: f(s).id == s.id && f(s).tagId == s.tagId && f(s).container == s.container
      modifies store`schedules, sched
      ensures CaughtUp(old(Present()), WrittenRows(old(store.schedules), t, listed, rowOk))
      ensures store.schedules == Rewritten(old(store.schedules), t, listed, rowOk, f)
    {
      hide Server.Sound, Server.CaughtUp, Store.Valid, Scheduler.Valid, Scheduler.Table, Reached, Fresh;
      hide Rewritten, RewrittenUpTo, Lists, WrittenRows, WrittenUpTo;
      AtRest();
      ghost var was, start := store.schedules, Present();
      ghost var done: set<Id> := {};
      NothingWritten(rows, rowOk);
      NothingRewritten(was, t, rows, listed, rowOk, f);
      for k := 0 to |rows|
        invariant CaughtUp(start, done)
        invariant WrittenUpTo(done, rows, rowOk, k)
        invariant RewrittenUpTo(was, store.schedules, t, rows, listed, rowOk, f, k)
      {
        SoFar(start, done);
        ghost var before, between := store.schedules, Present();
        NextToRewrite(was, before, t, rows, listed, rowOk, f, k);
        RewriteRow(rows[k], f(rows[k]), rowOk(rows[k].id));
        CaughtUpTwice(start, done, between, if rowOk(rows[k].id) then {rows[k].id} else {});
        WrittenStep(done, rows, rowOk, k);
        done := done + if rowOk(rows[k].id) then {rows[k].id} else {};
        RewrittenStep(was, before, store.schedules, t, rows, listed, rowOk, f, k);
      }
      WrittenAreListed(was, t, rows, listed, rowOk, done);
      RewrittenFrom(was, store.schedules, t, rows, listed, rowOk, f);
    }

    method UpdateTag(t: Id, req: Tag, dbOk: bool, listed: Id -> bool, rowOk: Id -> bool) returns (status: Status)
      requires Sound()
      modifies store, sched
      ensures store.nextId >= old(store.nextId)
      ensures CaughtUp(old(Present()), if status == OK && TagCronChanged(old(store.tags), t, req)
                                       then WrittenRows(old(store.schedules), t, listed, rowOk) else {})
      ensures status == NotFound <==> t !in old(store.tags)
      ensures status != OK ==> SameRows(old(store.schedules), old(store.tags), old(store.stacks))
      ensures status == OK <==> TagEditTaken(sched.syntax, old(store.tags), t, req, dbOk)
      ensures status == BadRequest <==>
        && t in old(store.tags)
        && (|| !sched.syntax.parses(if req.startCron == "" then old(store.tags)[t].startCron else req.startCron)
            || !sched.syntax.parses(if req.stopCron == "" then old(store.tags)[t].stopCron else req.stopCron))
      ensures status == OK ==>
        var was := old(store.tags)[t];
        var now := EditedTag(t, req, was);
        var changed := CronChanged(was, now);
        && SameRows(if changed
                    then Rewritten(old(store.schedules), t, listed, rowOk,
                                   (s: Schedule) => s.(startCron := now.startCron, stopCron := now.stopCron))
                    else old(store.schedules),
                    old(store.tags)[t := now], old(store.stacks))
        && (old(Coherent()) ==>
              (Coherent() <==> !changed || forall id :: id in old(store.schedules) && old(store.schedules)[id].tagId == Some(t) ==>
                                             listed(id) && rowOk(id)))
      ensures status != OK && old(Coherent()) ==> Coherent()
      // Name and flag become what was asked for, and an expression left empty stays; the rows written take the tag's expressions.
      ensures status == OK ==>
        var startCron := if req.startCron == "" then old(store.tags)[t].startCron else req.startCron;
        var stopCron := if req.stopCron == "" then old(store.tags)[t].stopCron else req.stopCron;
        store.tags == old(store.tags)[t := Tag(t, req.name, startCron, stopCron, req.enabled)]
      ensures status == OK ==>
        if store.tags[t].startCron == old(store.tags)[t].startCron && store.tags[t].stopCron == old(store.tags)[t].stopCron
        then store.schedules == old(store.schedules)
        else CarryExpressions(old(store.schedules), store.schedules, t, store.tags[t].startCron, store.tags[t].stopCron,
                              listed, rowOk)
    {
      hide Server.Sound, Server.CaughtUp, Store.Valid, Scheduler.Valid, Scheduler.Table, Tracks, Reached, Fresh;
      hide TagsAgree, WrittenRows, Rewritten, EditedTag, TagNameTaken, CarryExpressions;
      AtRest();
      ghost var start := Present();
      if t !in store.tags { return NotFound; }
      var existing := store.tags[t];
      var row := EditedTag(t, req, existing);
      EditedTagFields(t, req, existing);
      if !sched.syntax.parses(row.startCron) || !sched.syntax.parses(row.stopCron) { return BadRequest; }
      var cronChanged := row.startCron != existing.startCron || row.stopCron != existing.stopCron;
      var ok := store.UpdateTag(row, dbOk);
      if !ok { return if dbOk then Conflict else InternalError; }
      NothingMoved(start);
      if cronChanged {
        var rows := store.ListSchedulesByTag(t, listed);
        RewriteTagRows(t, rows, listed, rowOk, (s: Schedule) => s.(startCron := row.startCron, stopCron := row.stopCron));
        RewrittenCarry(old(store.schedules), t, listed, rowOk, row.startCron, row.stopCron);
      }
      ghost var was, now := old(store.schedules), store.schedules;
      if old(Coherent()) {
        TagUpdateCoherence(was, now, old(store.tags), store.tags, t, row, cronChanged, listed, rowOk);
      }
      status := OK;
    }

    method ToggleTag(t: Id, dbOk: bool, listed: Id -> bool, rowOk: Id -> bool) returns (status: Status)
      requires Sound()
      modifies store, sched
      ensures store.nextId >= old(store.nextId)
      ensures CaughtUp(old(Present()), if status == OK then WrittenRows(old(store.schedules), t, listed, rowOk) else {})
      ensures status == OK <==> t in old(store.tags) && dbOk
      ensures status != OK ==> SameRows(old(store.schedules), old(store.tags), old(store.stacks))
      ensures status == OK ==>
        var enabled := !old(store.tags)[t].enabled;
        SameRows(Rewritten(old(store.schedules), t, listed, rowOk, (s: Schedule) => s.(enabled := enabled)),
                 old(store.tags)[t := old(store.tags)[t].(enabled := enabled)], old(store.stacks))
      // The tag's schedules share its flag exactly when each was listed and written, or had that flag already.
      ensures status == OK ==>
        (ShareFlag(store.schedules, t, store.tags[t].enabled) <==>
         forall id :: id in old(store.schedules) && old(store.schedules)[id].tagId == Some(t) ==>
           (listed(id) && rowOk(id)) || old(store.schedules)[id].enabled == store.tags[t].enabled)
      ensures old(Coherent()) ==> Coherent()
    {
      hide Consistent, TableOf, Tracks, Server.CaughtUp, WrittenRows, Rewritten, TagsAgree, ShareFlag;
      ghost var start := Present();
      NothingMoved(start);
      if t !in store.tags { return NotFound; }
      var tag := store.tags[t].(enabled := !store.tags[t].enabled);
      var ok := store.UpdateTag(tag, dbOk);
      NothingMoved(start);
      if !ok { return InternalError; }
      var rows := store.ListSchedulesByTag(t, listed);
      RewriteTagRows(t, rows, listed, rowOk, (s: Schedule) => s.(enabled := tag.enabled));
      ToggledTag(old(store.schedules), store.schedules, old(store.tags), store.tags, t, tag.enabled, listed, rowOk);
      status := OK;
    }

    method UnregisterTag(t: Id, listed: Id -> bool)
      requires store.Valid() && sched.Valid()
      modifies sched
      ensures sched.Valid() && sched.Table() == old(sched.Table()) - ListedRows(store.schedules, t, listed)
    {
      hide Consistent, TableOf;
      ghost var table := sched.Table();
      var rows := store.ListSchedulesByTag(t, listed);
      ghost var done: set<Id> := {};
      for k := 0 to |rows|
        invariant sched.Valid()
        invariant sched.Table() == table - done
        invariant done == set j | 0 <= j < k :: rows[j].id
      {
        sched.RemoveSchedule(rows[k].id);
        done := done + {rows[k].id};
      }
      assert done == ListedRows(store.schedules, t, listed);
    }

    /**
      Unregisters the tag's listed schedules first and deletes the rows afterwards,
      each through its own query.  The registry then lags behind on those of the tag's
      schedules that are gone and were registered but not listed, or are still there and
      were demanded and listed; so it lags behind on nothing new exactly when each
      registered one was listed if and only if the deletion succeeded.
      */
    method DeleteTag(t: Id, listed: Id -> bool, schedulesOk: bool, tagsOk: bool) returns (status: Status)
      requires Sound()
      modifies store, sched
      ensures store.nextId >= old(store.nextId)
      ensures Sound() && sched.Table() == old(sched.Table()) - ListedRows(old(store.schedules), t, listed)
      ensures forall id :: id in Lagging() <==>
        DeletionLags(sched.syntax, old(Present()), t, listed, schedulesOk && tagsOk, id)
      ensures Lagging() <= old(Lagging()) <==> DeletedWhatWasListed(old(Present()), t, listed, schedulesOk && tagsOk)
      ensures old(Ready()) ==> (Ready() <==> DeletedWhatWasListed(old(Present()), t, listed, schedulesOk && tagsOk))
      ensures status == NoContent <==> schedulesOk && tagsOk
      ensures status == NoContent ==>
        SameRows(Untagged(old(store.schedules), t), old(store.tags) - {t}, old(store.stacks))
      ensures status != NoContent ==> SameRows(old(store.schedules), old(store.tags), old(store.stacks))
      ensures old(Coherent()) ==> Coherent()
    {
      hide Consistent, TableOf, ListedRows, TagsAgree, Tracks, View.Lag, View.Wanted, DeletionLags, DeletedWhatWasListed,
        Server.Ready, Server.CaughtUp, Demand, Reached, CatchesUp, Numbered, UniquePairs, UniqueTagNames, UniqueStackNames;
      ReadyWithoutLag();
      ghost var was := Present();
      UnregisterTag(t, listed);
      var ok := store.DeleteTag(t, schedulesOk, tagsOk);
      if old(Coherent()) && ok { CoherentAfterDeletion(was.schedules, old(store.tags), t); }
      LagAfterTagDeletion(sched.syntax, was, Present(), t, listed, ok);
      ReadyWithoutLag();
      if !ok { return NotFound; }
      status := NoContent;
    }

    /**
      One container of the apply loop: skipped when it has the tag already, otherwise
      given a row.  A failed lookup is ignored; the unique index then refuses a second row.
      */
    method ApplyOne(t: Id, tag: Tag, container: string, lookOk: bool, dbOk: bool, ghost start: View)
      returns (made: Option<Schedule>, existed: bool)
      requires CaughtUp(start, Fresh(start.nextId, store.nextId)) && start.nextId <= store.nextId
      modifies store`schedules, store`nextId, sched
      ensures store.nextId >= old(store.nextId)
      ensures CaughtUp(start, Fresh(start.nextId, store.nextId))
      ensures existed <==> lookOk && HasRow(old(store.schedules), t, container)
      ensures made.Some? <==> dbOk && !HasRow(old(store.schedules), t, container)
      ensures made.None? ==> store.schedules == old(store.schedules)
      ensures made.Some? ==>
        && made.value.id !in old(store.schedules) && store.schedules == old(store.schedules)[made.value.id := made.value]
        && made.value.tagId == Some(t) && made.value.container == container
        && made.value.startCron == tag.startCron && made.value.stopCron == tag.stopCron && made.value.enabled == tag.enabled
        && Plain(made.value)
      ensures made.Some? ==> HasRow(store.schedules, t, container)
    {
      hide Server.Sound, Server.CaughtUp, Scheduler.Valid, Scheduler.Table, Reached, Tracks, Fresh;
      SoFar(start, Fresh(start.nextId, store.nextId));
      var existing := store.GetScheduleByTagAndContainer(t, container);
      existed := lookOk && existing.Some?;
      if existed {
        assert store.schedules[existing.value.id].container == container;
        return None, true;
      }
      var row := Schedule(0, container, container, "", tag.startCron, tag.stopCron, tag.enabled, false, "", 0, 0, Some(t));
      RowsByContainer(store.schedules, row.(id := store.nextId));
      made := InsertSchedule(row, dbOk, start);
      if made.Some? { assert store.schedules[made.value.id].container == container; }
    }

    method ApplyTag(t: Id, containers: seq<string>, lookOk: nat -> bool, rowOk: nat -> bool)
      returns (status: Status, created: seq<Schedule>, skipped: seq<string>)
      requires Sound()
      modifies store, sched
      ensures store.nextId >= old(store.nextId)
      ensures CaughtUp(old(Present()), Fresh(old(store.nextId), store.nextId))
      ensures status == NotFound <==> t !in old(store.tags)
      ensures status == BadRequest <==> t in old(store.tags) && containers == []
      ensures status == OK <==> t in old(store.tags) && containers != []
      ensures status != OK ==> SameRows(old(store.schedules), old(store.tags), old(store.stacks))
      ensures status != OK ==> created == [] && skipped == []
      ensures store.tags == old(store.tags) && store.stacks == old(store.stacks)
      ensures status == OK ==> Applied(old(store.schedules), store.schedules, old(store.tags)[t], t, containers, created)
      // Exactly the containers that had the tag, or whose row the database takes, have it afterwards.
      ensures status == OK ==> AskedFor(old(store.schedules), store.schedules, t, containers, rowOk)
      // With every statement carried out, the request splits into created and skipped and each container has its row.
      ensures status == OK && (forall k :: lookOk(k) && rowOk(k)) ==>
        Answered(store.schedules, t, created, skipped, containers)
      // Applying again creates nothing.
      ensures (forall c :: c in containers ==> HasRow(old(store.schedules), t, c)) ==>
        created == [] && SameRows(old(store.schedules), old(store.tags), old(store.stacks))
      ensures old(Coherent()) ==> Coherent()
    {
      hide Server.Sound, Server.CaughtUp, Store.Valid, Scheduler.Valid, Scheduler.Table, Reached, Fresh;
      hide HasRow, Applied, Answered, TagsAgree, AskedFor;
      AtRest();
      ghost var start := Present();
      created, skipped := [], [];
      if t !in store.tags { return NotFound, [], []; }
      var tag := store.tags[t];
      if containers == [] { return BadRequest, [], []; }
      NothingApplied(store.schedules, tag, t, containers);
      NothingAsked(store.schedules, t);
      NothingAskedFor(store.schedules, t, rowOk);
      for k := 0 to |containers|
        invariant CaughtUp(start, Fresh(start.nextId, store.nextId))
        invariant AskedFor(old(store.schedules), store.schedules, t, containers[..k], rowOk)
        invariant store.tags == old(store.tags) && store.stacks == old(store.stacks) && store.nextId >= old(store.nextId)
        invariant Applied(old(store.schedules), store.schedules, tag, t, containers, created)
        invariant (forall j :: lookOk(j) && rowOk(j)) ==> Answered(store.schedules, t, created, skipped, containers[..k])
      {
        ghost var before, createdBefore, skippedBefore := store.schedules, created, skipped;
        var made, existed := ApplyOne(t, tag, containers[k], lookOk(k), rowOk(k), start);
        AskedForStep(old(store.schedules), before, store.schedules, t, containers[..k], containers[k], rowOk, made);
        assert containers[..k + 1] == containers[..k] + [containers[k]];
        if existed { skipped := skipped + [containers[k]]; }
        if made.Some? {
          AppliedStep(old(store.schedules), before, store.schedules, tag, t, containers, created, made.value);
          created := created + [made.value];
        }
        if forall j :: lookOk(j) && rowOk(j) {
          AnsweredStep(before, store.schedules, t, createdBefore, skippedBefore, containers[..k], made, containers[k]);
        }
      }
      assert containers[..|containers|] == containers;
      AppliedToNone(old(store.schedules), store.schedules, tag, t, containers, created);
      if old(Coherent()) { AppliedCoherently(old(store.schedules), store.schedules, store.tags, t, containers, created); }
      status := OK;
    }

    method RemoveTagFromContainer(t: Id, container: string, dbOk: bool) returns (status: Status)
      requires Sound()
      modifies store, sched
      ensures store.nextId >= old(store.nextId)
      ensures CaughtUp(old(Present()), if dbOk then RowsOf(old(store.schedules), t, container) else {})
      ensures status == NotFound <==> !HasRow(old(store.schedules), t, container)
      ensures status == NoContent <==> HasRow(old(store.schedules), t, container) && dbOk
      ensures store.tags == old(store.tags) && store.stacks == old(store.stacks)
      ensures status == NoContent ==>
        store.schedules == map id | id in old(store.schedules) &&
            !(old(store.schedules)[id].tagId == Some(t) && old(store.schedules)[id].container == container)
          :: old(store.schedules)[id]
      ensures status != NoContent ==> SameRows(old(store.schedules), old(store.tags), old(store.stacks))
      ensures old(Coherent()) ==> Coherent()
    {
      hide Server.Sound, Server.CaughtUp, Store.Valid, Scheduler.Valid, Scheduler.Table, Tracks, Reached, Fresh, TagsAgree;
      AtRest();
      ghost var was := Present();
      var found := store.GetScheduleByTagAndContainer(t, container);
      if found.None? {
        NoRowsOf(store.schedules, t, container);
        return NotFound;
      }
      assert HasRow(store.schedules, t, container);
      var id := found.value.id;
      UniqueRows();
      OnlyRowOf(store.schedules, t, container, id);
      var ok := store.DeleteSchedule(id, dbOk);
      if !ok { return InternalError; }
      sched.RemoveSchedule(id);
      if old(Coherent()) { CoherentWithout(was.schedules, store.tags, id); }
      RowReplaced(was, id);
      status := NoContent;
    }

    // ---------- Stacks ----------

    method CreateStack(req: Stack, dbOk: bool) returns (status: Status)
      requires Sound()
      modifies store, sched
      ensures store.nextId >= old(store.nextId)
      ensures CaughtUp(old(Present()), Fresh(old(store.nextId), store.nextId))
      ensures var row := req.(id := old(store.nextId), name := Text.TrimSpace(req.name));
        && (status == BadRequest <==>
              || row.name == "" || (req.startCron == "" && req.stopCron == "" && !req.onDemand)
              || (req.startCron != "" && !sched.syntax.parses(req.startCron))
              || (req.stopCron != "" && !sched.syntax.parses(req.stopCron))
              || (req.onDemand && (req.onDemandUrl == "" || req.primaryContainer == "")))
        && (status == Created <==> GoodStack(sched.syntax, row) && dbOk && !StackNameTaken(old(store.stacks), row))
        && (status == Created ==> SameRows(old(store.schedules), old(store.tags), old(store.stacks)[row.id := row]))
      ensures status != Created ==> SameRows(old(store.schedules), old(store.tags), old(store.stacks))
      ensures old(Coherent()) ==> Coherent()
    {
      hide Server.Sound, Server.CaughtUp, Store.Valid, Scheduler.Valid, Scheduler.Table, Reached, Fresh;
      hide StackNameTaken;
      AtRest();
      ghost var start := Present();
      var name := Text.TrimSpace(req.name);
      if name == "" { return BadRequest; }
      if req.startCron == "" && req.stopCron == "" && !req.onDemand { return BadRequest; }
      if req.startCron != "" && !sched.syntax.parses(req.startCron) { return BadRequest; }
      if req.stopCron != "" && !sched.syntax.parses(req.stopCron) { return BadRequest; }
      if req.onDemand && (req.onDemandUrl == "" || req.primaryContainer == "") { return BadRequest; }
      var created := InsertStack(req.(name := name), dbOk, start);
      if created.None? { return if dbOk then Conflict else InternalError; }
      status := Created;
    }

    method UpdateStack(id: Id, req: Stack, dbOk: bool) returns (status: Status)
      requires Sound()
      modifies store, sched
      ensures store.nextId >= old(store.nextId)
      ensures CaughtUp(old(Present()), if status == OK then {id} else {})
      ensures status == NotFound <==> id !in old(store.stacks)
      ensures status == OK <==> StackEditTaken(sched.syntax, old(store.stacks), id, req, dbOk)
      ensures status == BadRequest <==>
        && id in old(store.stacks)
        && (|| (req.startCron != "" && !sched.syntax.parses(req.startCron))
            || (req.stopCron != "" && !sched.syntax.parses(req.stopCron))
            || (req.onDemand && (req.onDemandUrl == "" || req.primaryContainer == "")))
      ensures status == OK ==> SameRows(old(store.schedules), old(store.tags), old(store.stacks)[id := req.(id := id)])
      ensures status != OK ==> SameRows(old(store.schedules), old(store.tags), old(store.stacks))
      ensures old(Coherent()) ==> Coherent()
    {
      hide Consistent, TableOf, Tracks, Server.CaughtUp, View.Lag, View.Held, Demand, Reached, CatchesUp, Numbered, Fresh;
      ghost var was := Present();
      NothingMoved(was);
      if id !in store.stacks { return NotFound; }
      var row := req.(id := id);
      if row.startCron != "" && !sched.syntax.parses(row.startCron) { return BadRequest; }
      if row.stopCron != "" && !sched.syntax.parses(row.stopCron) { return BadRequest; }
      if row.onDemand && (row.onDemandUrl == "" || row.primaryContainer == "") { return BadRequest; }
      var ok := store.UpdateStack(row, dbOk);
      if !ok { return if dbOk then Conflict else InternalError; }
      var _ := sched.UpdateStack(row);
      RowReplaced(was, id);
      status := OK;
    }

    /**
      Unregisters before it deletes: the registry lags behind on nothing new exactly
      when the deletion succeeds or nothing was registered for the stack.
      */
    method DeleteStack(id: Id, dbOk: bool) returns (status: Status)
      requires Sound()
      modifies store, sched
      ensures store.nextId >= old(store.nextId)
      ensures Sound()
      ensures sched.Table() == if id in old(store.stacks) then old(sched.Table()) - {id} else old(sched.Table())
      ensures Lagging() ==
        if id !in old(store.stacks) then old(Lagging())
        else if dbOk then old(Lagging()) - {id}
        else old(Lagging()) + if id in old(sched.Table()) then {id} else {}
      ensures Lagging() <= old(Lagging()) <==> id !in old(store.stacks) || dbOk || id !in old(sched.Table())
      ensures old(Ready()) ==> (Ready() <==> id !in old(store.stacks) || dbOk || id !in old(sched.Table()))
      ensures status == NotFound <==> id !in old(store.stacks)
      ensures status == NoContent <==> id in old(store.stacks) && dbOk
      ensures status == NoContent ==> SameRows(old(store.schedules), old(store.tags), old(store.stacks) - {id})
      ensures status != NoContent ==> SameRows(old(store.schedules), old(store.tags), old(store.stacks))
      ensures old(Coherent()) ==> Coherent()
    {
      hide Consistent, TableOf, Tracks, View.Lag, View.Wanted, View.Held, Server.CaughtUp, Server.Ready, Demand, Reached,
        CatchesUp, Numbered, UniquePairs, UniqueTagNames, UniqueStackNames;
      ReadyWithoutLag();
      ghost var was := Present();
      if id !in store.stacks { return NotFound; }
      sched.RemoveStack(id);
      var ok := store.DeleteStack(id, dbOk);
      LagAfterStackDeletion(sched.syntax, was, Present(), id, ok);
      ReadyWithoutLag();
      status := if ok then NoContent else InternalError;
    }

    /** Adds without removing when the stack becomes enabled: while it was disabled it owned nothing. */
    method ToggleStack(id: Id, dbOk: bool) returns (status: Status)
      requires Sound()
      modifies store, sched
      ensures store.nextId >= old(store.nextId)
      ensures CaughtUp(old(Present()), if status == OK then {id} else {})
      ensures status == OK <==> id in old(store.stacks) && dbOk
      ensures status == OK ==>
        SameRows(old(store.schedules), old(store.tags),
                 old(store.stacks)[id := old(store.stacks)[id].(enabled := !old(store.stacks)[id].enabled)])
      ensures status != OK ==> SameRows(old(store.schedules), old(store.tags), old(store.stacks))
      ensures old(Coherent()) ==> Coherent()
    {
      hide Consistent, TableOf, Tracks, Server.CaughtUp, View.Lag, View.Held, Demand, Reached, CatchesUp, Numbered, Fresh;
      ghost var was := Present();
      NothingMoved(was);
      if id !in store.stacks { return NotFound; }
      var toggled := store.stacks[id].(enabled := !store.stacks[id].enabled);
      var ok := store.UpdateStack(toggled, dbOk);
      if !ok { return NotFound; }
      if toggled.enabled {
        OwnsNothing(sched.syntax, was, id);
        var _ := sched.AddStack(toggled);
      } else {
        sched.RemoveStack(id);
      }
      RowReplaced(was, id);
      status := OK;
    }

    // ---------- Import ----------

    method ImportSchedule(s: Schedule, dbOk: bool, ghost start: View) returns (created: bool)
      requires CaughtUp(start, Fresh(start.nextId, store.nextId)) && start.nextId <= store.nextId && s.tagId.None?
      modifies store`schedules, store`nextId, sched
      ensures CaughtUp(start, Fresh(start.nextId, store.nextId))
      ensures created == dbOk && store.nextId == old(store.nextId) + 1 && old(store.nextId) !in old(store.schedules)
      ensures store.schedules ==
        if created then old(store.schedules)[old(store.nextId) := NumberedSchedule(s, old(store.nextId))] else old(store.schedules)
      ensures old(Coherent()) ==> Coherent()
      ensures |store.schedules| == |old(store.schedules)| + if created then 1 else 0
    {
      hide Server.Sound, Server.CaughtUp, Store.Valid, Scheduler.Valid, Scheduler.Table, Reached, Fresh;
      hide Tracks;
      var made := InsertSchedule(s, dbOk, start);
      created := made.Some?;
    }

    method ImportTag(tag: Tag, dbOk: bool, ghost start: View) returns (created: bool)
      requires CaughtUp(start, Fresh(start.nextId, store.nextId)) && start.nextId <= store.nextId
      modifies store`tags, store`nextId
      ensures CaughtUp(start, Fresh(start.nextId, store.nextId))
      ensures created == (dbOk && !Named(old(store.tags), TagName, tag.name))
      ensures store.nextId == old(store.nextId) + 1 && old(store.nextId) !in old(store.tags)
      ensures store.tags ==
        if created then old(store.tags)[old(store.nextId) := NumberedTag(tag, old(store.nextId))] else old(store.tags)
      ensures old(Coherent()) ==> Coherent()
      ensures |store.tags| == |old(store.tags)| + if created then 1 else 0
    {
      hide Server.Sound, Server.CaughtUp, Store.Valid, Scheduler.Valid, Scheduler.Table,
        Reached, Fresh, TagsAgree, Named, TagNameTaken;
      SoFar(start, Fresh(start.nextId, store.nextId));
      NameTaken(tag, Stack(0, "", "", "", "", false, false, "", "", 0, 0));
      hide Tracks;
      var made := InsertTag(tag, dbOk, start);
      created := made.Some?;
      if old(Coherent()) && created { CoherentWithTag(store.schedules, old(store.tags), made.value); }
    }

    method ImportStack(st: Stack, dbOk: bool, ghost start: View) returns (created: bool)
      requires CaughtUp(start, Fresh(start.nextId, store.nextId)) && start.nextId <= store.nextId
      modifies store`stacks, store`nextId, sched
      ensures CaughtUp(start, Fresh(start.nextId, store.nextId))
      ensures created == (dbOk && !Named(old(store.stacks), StackName, st.name))
      ensures store.nextId == old(store.nextId) + 1 && old(store.nextId) !in old(store.stacks)
      ensures store.stacks ==
        if created then old(store.stacks)[old(store.nextId) := NumberedStack(st, old(store.nextId))] else old(store.stacks)
      ensures old(Coherent()) ==> Coherent()
      ensures |store.stacks| == |old(store.stacks)| + if created then 1 else 0
    {
      hide Server.Sound, Server.CaughtUp, Store.Valid, Scheduler.Valid, Scheduler.Table,
        Reached, Fresh, TagsAgree, Named, StackNameTaken;
      SoFar(start, Fresh(start.nextId, store.nextId));
      NameTaken(Tag(0, "", "", "", false), st);
      hide Tracks;
      var made := InsertStack(st, dbOk, start);
      created := made.Some?;
    }

    /** Under a fresh id the unique index refuses exactly the names that are there. */
    lemma NameTaken(tag: Tag, st: Stack)
      requires store.Valid()
      ensures TagNameTaken(store.tags, tag.(id := store.nextId)) <==> Named(store.tags, TagName, tag.name)
      ensures StackNameTaken(store.stacks, st.(id := store.nextId)) <==> Named(store.stacks, StackName, st.name)
    {
      if Named(store.tags, TagName, tag.name) {
        var id :| id in store.tags && TagName(store.tags[id]) == tag.name;
        assert id != store.nextId && store.tags[id].name == tag.name;
      }
      if Named(store.stacks, StackName, st.name) {
        var id :| id in store.stacks && StackName(store.stacks[id]) == st.name;
        assert id != store.nextId && store.stacks[id].name == st.name;
      }
    }

    method ImportSchedules(list: seq<Schedule>, scheduleOk: nat -> bool) returns (imported: nat)
      requires Sound() && forall k :: 0 <= k < |list| ==> list[k].tagId.None?
      modifies store`schedules, store`nextId, sched
      ensures store.nextId == old(store.nextId) + |list|
      ensures CaughtUp(old(Present()), Fresh(old(store.nextId), store.nextId))
      ensures imported <= |list| && |store.schedules| == |old(store.schedules)| + imported
      ensures AllOk(scheduleOk) ==> imported == |list|
      ensures Entered(old(store.schedules), store.schedules, old(store.nextId), list, NumberedSchedule, scheduleOk, |list|)
      ensures old(Coherent()) ==> Coherent()
    {
      hide Server.Sound, Server.CaughtUp, Store.Valid, Scheduler.Valid, Scheduler.Table, Reached, Fresh;
      hide Server.Coherent, Entered, NumberedSchedule, AllOk;
      AtRest();
      IdsBelow();
      imported := 0;
      ghost var start := Present();
      ghost var was, first := store.schedules, store.nextId;
      NoneEntered(was, first, list, NumberedSchedule, scheduleOk);
      for k := 0 to |list|
        invariant store.nextId == first + k && CaughtUp(start, Fresh(start.nextId, store.nextId))
        invariant imported <= k && |store.schedules| == |was| + imported
        invariant AllOk(scheduleOk) ==> imported == k
        invariant Entered(was, store.schedules, first, list, NumberedSchedule, scheduleOk, k)
        invariant old(Coherent()) ==> Coherent()
      {
        ghost var before, next := store.schedules, store.nextId;
        var created := ImportSchedule(list[k], scheduleOk(k), start);
        ScheduleStep(was, before, store.schedules, first, next, list, scheduleOk, k);
        EachOk(scheduleOk, k);
        if created { imported := imported + 1; }
      }
    }

    method ImportTags(list: seq<Tag>, tagOk: nat -> bool) returns (imported: nat)
      requires Sound()
      modifies store`tags, store`nextId
      ensures store.nextId == old(store.nextId) + |list|
      ensures CaughtUp(old(Present()), Fresh(old(store.nextId), store.nextId))
      ensures imported <= |list| && |store.tags| == |old(store.tags)| + imported
      ensures EnteredNames(old(store.tags), store.tags, old(store.nextId), list, NumberedTag, TagName, tagOk)
      ensures old(Coherent()) ==> Coherent()
    {
      hide Server.Sound, Server.CaughtUp, Store.Valid, Scheduler.Valid, Scheduler.Table, Reached, Fresh;
      hide Server.Coherent, Entered, NamesKnown, Named, NewNames, NumberedTag;
      AtRest();
      IdsBelow();
      imported := 0;
      ghost var start := Present();
      ghost var was, first := store.tags, store.nextId;
      ghost var enters := NewNames(was, list, TagName, tagOk);
      NoneEntered(was, first, list, NumberedTag, enters);
      NoNamesKnown(was, list, TagName, tagOk);
      for k := 0 to |list|
        invariant store.nextId == first + k && CaughtUp(start, Fresh(start.nextId, store.nextId))
        invariant imported <= k && |store.tags| == |was| + imported
        invariant Entered(was, store.tags, first, list, NumberedTag, enters, k)
        invariant NamesKnown(was, store.tags, list, TagName, tagOk, k)
        invariant old(Coherent()) ==> Coherent()
      {
        ghost var before, next := store.tags, store.nextId;
        var created := ImportTag(list[k], tagOk(k), start);
        TagStep(was, before, store.tags, first, next, list, tagOk, k, created);
        if created { imported := imported + 1; }
      }
    }

    method ImportStacks(list: seq<Stack>, stackOk: nat -> bool) returns (imported: nat)
      requires Sound()
      modifies store`stacks, store`nextId, sched
      ensures store.nextId == old(store.nextId) + |list|
      ensures CaughtUp(old(Present()), Fresh(old(store.nextId), store.nextId))
      ensures imported <= |list| && |store.stacks| == |old(store.stacks)| + imported
      ensures EnteredNames(old(store.stacks), store.stacks, old(store.nextId), list, NumberedStack, StackName, stackOk)
      ensures old(Coherent()) ==> Coherent()
    {
      hide Server.Sound, Server.CaughtUp, Store.Valid, Scheduler.Valid, Scheduler.Table, Reached, Fresh;
      hide Server.Coherent, Entered, NamesKnown, Named, NewNames, NumberedStack;
      AtRest();
      IdsBelow();
      imported := 0;
      ghost var start := Present();
      ghost var was, first := store.stacks, store.nextId;
      ghost var enters := NewNames(was, list, StackName, stackOk);
      NoneEntered(was, first, list, NumberedStack, enters);
      NoNamesKnown(was, list, StackName, stackOk);
      for k := 0 to |list|
        invariant store.nextId == first + k && CaughtUp(start, Fresh(start.nextId, store.nextId))
        invariant imported <= k && |store.stacks| == |was| + imported
        invariant Entered(was, store.stacks, first, list, NumberedStack, enters, k)
        invariant NamesKnown(was, store.stacks, list, StackName, stackOk, k)
        invariant old(Coherent()) ==> Coherent()
      {
        ghost var before, next := store.stacks, store.nextId;
        var created := ImportStack(list[k], stackOk(k), start);
        StackStep(was, before, store.stacks, first, next, list, stackOk, k, created);
        if created { imported := imported + 1; }
      }
    }

    lemma IdsBelow()
      requires Sound()
      ensures forall id :: id in store.schedules || id in store.tags || id in store.stacks ==> id < store.nextId
    {
      hide Consistent, TableOf, Tracks;
    }

    ghost predicate FilePasses(cfg: YamlConfig.Config) {
      && YamlConfig.TagsPass(sched.syntax.parses, cfg) && YamlConfig.SchedulesPass(sched.syntax.parses, cfg)
      && YamlConfig.StacksPass(sched.syntax.parses, cfg)
    }

    /**
      Imports what the file's checks accept, skipping the rows the database refuses:
      every schedule it takes, and every tag and stack it takes whose name is new.
      */
    method Import(cfg: YamlConfig.Config, scheduleOk: nat -> bool, tagOk: nat -> bool, stackOk: nat -> bool)
      returns (status: Status, imported: nat, tagsImported: nat, stacksImported: nat)
      requires Sound()
      modifies store, sched
      ensures store.nextId >= old(store.nextId)
      ensures CaughtUp(old(Present()), Fresh(old(store.nextId), store.nextId))
      ensures status == if FilePasses(cfg) then OK else BadRequest
      ensures status != OK ==> SameRows(old(store.schedules), old(store.tags), old(store.stacks))
      ensures status == OK ==>
        && Imported(cfg, scheduleOk, tagOk, stackOk, old(Stored()), Stored())
        && Counted(old(Stored()), Stored(), imported, tagsImported, stacksImported)
        && (AllOk(scheduleOk) ==> imported == |cfg.schedules|)
      ensures imported <= |cfg.schedules| && tagsImported <= |cfg.tags| && stacksImported <= |cfg.stacks|
      ensures old(Coherent()) ==> Coherent()
    {
      hide Server.Sound, Server.CaughtUp, Store.Valid, Scheduler.Valid, Server.Coherent, Imported, Counted, Fresh;
      AtRest();
      hide YamlConfig.FileSchedules, YamlConfig.FileTags, YamlConfig.FileStacks;
      hide YamlConfig.Imports, YamlConfig.TagsPass, YamlConfig.SchedulesPass, YamlConfig.StacksPass;
      var parsed := YamlConfig.ToSchedulesTagsAndStacks(sched.syntax.parses, cfg);
      YamlConfig.AcceptedWhenAllPass(sched.syntax.parses, cfg, parsed);
      if parsed.Rejected? { return BadRequest, 0, 0, 0; }
      imported, tagsImported, stacksImported :=
        ImportRows(parsed.schedules, parsed.tags, parsed.stacks, cfg, scheduleOk, tagOk, stackOk);
      status := OK;
    }

    /** The three loops of the import handler. */
    method ImportRows(schedules: seq<Schedule>, tags: seq<Tag>, stacks: seq<Stack>, ghost cfg: YamlConfig.Config,
                      scheduleOk: nat -> bool, tagOk: nat -> bool, stackOk: nat -> bool)
      returns (imported: nat, tagsImported: nat, stacksImported: nat)
      requires Sound()
      requires schedules == YamlConfig.FileSchedules(cfg) && tags == YamlConfig.FileTags(cfg)
      requires stacks == YamlConfig.FileStacks(cfg)
      modifies store, sched
      ensures store.nextId >= old(store.nextId)
      ensures CaughtUp(old(Present()), Fresh(old(store.nextId), store.nextId))
      ensures Imported(cfg, scheduleOk, tagOk, stackOk, old(Stored()), Stored())
      ensures Counted(old(Stored()), Stored(), imported, tagsImported, stacksImported)
      ensures imported <= |schedules| && tagsImported <= |tags| && stacksImported <= |stacks|
      ensures AllOk(scheduleOk) ==> imported == |schedules|
      ensures old(Coherent()) ==> Coherent()
    {
      hide Server.Sound, Server.CaughtUp, Store.Valid, Scheduler.Valid, Scheduler.Table, Reached, Fresh;
      hide Server.Coherent, Entered, EnteredNames, Imported, NumberedSchedule, NumberedTag, NumberedStack;
      hide YamlConfig.FileSchedules, YamlConfig.FileTags, YamlConfig.FileStacks, TagName, StackName;
      AtRest();
      ghost var was, start := Stored(), Present();
      YamlConfig.FileSchedulesUntagged(cfg);
      imported := ImportSchedules(schedules, scheduleOk);
      ghost var firstTag := store.nextId;
      SoFar(start, Fresh(start.nextId, firstTag));
      ghost var afterSchedules := Present();
      tagsImported := ImportTags(tags, tagOk);
      ghost var firstStack := store.nextId;
      FreshTwice(start, afterSchedules);
      SoFar(start, Fresh(start.nextId, firstStack));
      ghost var afterTags := Present();
      stacksImported := ImportStacks(stacks, stackOk);
      FreshTwice(start, afterTags);
      ghost var now := Stored();
      AllThree(cfg, schedules, tags, stacks, firstTag, firstStack, scheduleOk, tagOk, stackOk, was, now);
    }
  }

  /** The counts an import reports are the rows it added. */
  predicate Counted(was: Rows, now: Rows, schedules: nat, tags: nat, stacks: nat) {
    && |now.schedules| == |was.schedules| + schedules && |now.tags| == |was.tags| + tags && |now.stacks| == |was.stacks| + stacks
  }

  /** All of a list has gone in that has a new name, and no other. */
  ghost predicate EnteredNames<T>(was: map<Id, T>, now: map<Id, T>, first: Id, list: seq<T>, numbered: (T, Id) -> T,
                                  nameOf: T -> string, ok: nat -> bool)
  {
    && Entered(was, now, first, list, numbered, NewNames(was, list, nameOf, ok), |list|)
    && NamesKnown(was, now, list, nameOf, ok, |list|)
  }

  /** What an accepted file adds: exactly the entries that go in, each once, and nothing else. */
  ghost predicate Imported(cfg: YamlConfig.Config, scheduleOk: nat -> bool, tagOk: nat -> bool, stackOk: nat -> bool,
                           was: Rows, now: Rows)
  {
    var firstTag := was.nextId + |cfg.schedules|;
    var firstStack := firstTag + |cfg.tags|;
    && Entered(was.schedules, now.schedules, was.nextId, YamlConfig.FileSchedules(cfg), NumberedSchedule, scheduleOk,
               |cfg.schedules|)
    && EnteredNames(was.tags, now.tags, firstTag, YamlConfig.FileTags(cfg), NumberedTag, TagName, tagOk)
    && EnteredNames(was.stacks, now.stacks, firstStack, YamlConfig.FileStacks(cfg), NumberedStack, StackName, stackOk)
    && now.nextId == firstStack + |cfg.stacks|
  }

  /** The old rows are as they were, and beside them are those entries the database takes, under the ids drawn for them. */
  ghost predicate SchedulesImported(was: map<Id, Schedule>, now: map<Id, Schedule>, first: Id,
                                    entries: seq<YamlConfig.ScheduleEntry>, ok: nat -> bool)
  {
    && (forall id :: id in was ==> id in now && now[id] == was[id])
    && (forall id :: id in now && id !in was ==>
          first <= id < first + |entries| && ScheduleOfEntry(now[id], id, entries[id - first]))
    && (forall k :: 0 <= k < |entries| ==> (first + k in now <==> ok(k)))
  }

  /** The entry is accepted, and no old row and no earlier entry that was accepted has its name. */
  ghost predicate NewTag(was: map<Id, Tag>, entries: seq<YamlConfig.TagEntry>, ok: nat -> bool, k: nat)
    requires k < |entries|
  {
    && ok(k) && (forall id :: id in was ==> was[id].name != entries[k].name)
    && forall j :: 0 <= j < k && ok(j) ==> entries[j].name != entries[k].name
  }

  ghost predicate NewStack(was: map<Id, Stack>, entries: seq<YamlConfig.StackEntry>, ok: nat -> bool, k: nat)
    requires k < |entries|
  {
    && ok(k) && (forall id :: id in was ==> was[id].name != entries[k].name)
    && forall j :: 0 <= j < k && ok(j) ==> entries[j].name != entries[k].name
  }

  /** As for schedules; exactly the entries with a new name go in. */
  ghost predicate TagsImported(was: map<Id, Tag>, now: map<Id, Tag>, first: Id, entries: seq<YamlConfig.TagEntry>,
                               ok: nat -> bool)
  {
    && (forall id :: id in was ==> id in now && now[id] == was[id])
    && (forall id :: id in now && id !in was ==> first <= id < first + |entries| && var e := entries[id - first];
          now[id] == Tag(id, e.name, e.startCron, e.stopCron, e.enabled))
    && (forall k :: 0 <= k < |entries| ==>
          (first + k in now <==> NewTag(was, entries, ok, k)))
  }

  ghost predicate StacksImported(was: map<Id, Stack>, now: map<Id, Stack>, first: Id, entries: seq<YamlConfig.StackEntry>,
                                 ok: nat -> bool)
  {
    && (forall id :: id in was ==> id in now && now[id] == was[id])
    && (forall id :: id in now && id !in was ==>
          first <= id < first + |entries| && StackOfEntry(now[id], id, entries[id - first]))
    && (forall k :: 0 <= k < |entries| ==>
          (first + k in now <==> NewStack(was, entries, ok, k)))
  }

  ghost predicate NewName<T>(was: map<Id, T>, list: seq<T>, nameOf: T -> string, ok: nat -> bool, k: nat)
    requires k < |list|
  {
    && ok(k) && (forall id :: id in was ==> nameOf(was[id]) != nameOf(list[k]))
    && forall j :: 0 <= j < k && ok(j) ==> nameOf(list[j]) != nameOf(list[k])
  }

  lemma EnteredMeans<T>(was: map<Id, T>, now: map<Id, T>, first: Id, list: seq<T>, numbered: (T, Id) -> T,
                        nameOf: T -> string, ok: nat -> bool)
    requires EnteredNames(was, now, first, list, numbered, nameOf, ok)
    ensures forall id :: id in was ==> id in now && now[id] == was[id]
    ensures forall id :: id in now && id !in was ==> first <= id < first + |list| && now[id] == numbered(list[id - first], id)
    ensures forall k :: 0 <= k < |list| ==> (first + k in now <==> NewName(was, list, nameOf, ok, k))
  {
    hide NamesKnown;
    forall k | 0 <= k < |list| ensures first + k in now <==> NewName(was, list, nameOf, ok, k) {
      assert first + k in now <==> NewNames(was, list, nameOf, ok)(k);
    }
  }

  lemma SchedulesImport(cfg: YamlConfig.Config, was: map<Id, Schedule>, now: map<Id, Schedule>, first: Id, ok: nat -> bool)
    requires Entered(was, now, first, YamlConfig.FileSchedules(cfg), NumberedSchedule, ok, |cfg.schedules|)
    ensures SchedulesImported(was, now, first, cfg.schedules, ok)
  {
    YamlConfig.FileFields(cfg);
    hide YamlConfig.FileSchedules;
  }

  lemma TagsImport(cfg: YamlConfig.Config, was: map<Id, Tag>, now: map<Id, Tag>, first: Id, ok: nat -> bool)
    requires EnteredNames(was, now, first, YamlConfig.FileTags(cfg), NumberedTag, TagName, ok)
    ensures TagsImported(was, now, first, cfg.tags, ok)
  {
    hide EnteredNames, NewName, YamlConfig.FileTags;
    var list := YamlConfig.FileTags(cfg);
    YamlConfig.FileFields(cfg);
    EnteredMeans(was, now, first, list, NumberedTag, TagName, ok);
    forall k | 0 <= k < |list| ensures NewName(was, list, TagName, ok, k) <==> NewTag(was, cfg.tags, ok, k) {
      TagNameIsNew(was, list, cfg.tags, ok, k);
    }
    hide NewTag;
  }

  lemma TagNameIsNew(was: map<Id, Tag>, list: seq<Tag>, entries: seq<YamlConfig.TagEntry>, ok: nat -> bool, k: nat)
    requires k < |list| == |entries| && forall j :: 0 <= j < |list| ==> list[j].name == entries[j].name
    ensures NewName(was, list, TagName, ok, k) <==> NewTag(was, entries, ok, k)
  {
    assert forall j :: 0 <= j < |list| ==> TagName(list[j]) == entries[j].name;
  }

  lemma StacksImport(cfg: YamlConfig.Config, was: map<Id, Stack>, now: map<Id, Stack>, first: Id, ok: nat -> bool)
    requires EnteredNames(was, now, first, YamlConfig.FileStacks(cfg), NumberedStack, StackName, ok)
    ensures StacksImported(was, now, first, cfg.stacks, ok)
  {
    hide EnteredNames, NewName, YamlConfig.FileStacks;
    var list := YamlConfig.FileStacks(cfg);
    YamlConfig.FileFields(cfg);
    EnteredMeans(was, now, first, list, NumberedStack, StackName, ok);
    forall k | 0 <= k < |list| ensures NewName(was, list, StackName, ok, k) <==> NewStack(was, cfg.stacks, ok, k) {
      StackNameIsNew(was, list, cfg.stacks, ok, k);
    }
    hide NewStack;
  }

  lemma StackNameIsNew(was: map<Id, Stack>, list: seq<Stack>, entries: seq<YamlConfig.StackEntry>, ok: nat -> bool, k: nat)
    requires k < |list| == |entries| && forall j :: 0 <= j < |list| ==> list[j].name == entries[j].name
    ensures NewName(was, list, StackName, ok, k) <==> NewStack(was, entries, ok, k)
  {
    assert forall j :: 0 <= j < |list| ==> StackName(list[j]) == entries[j].name;
  }

  /** What an accepted file leaves, field by field. */
  lemma ImportMeans(cfg: YamlConfig.Config, scheduleOk: nat -> bool, tagOk: nat -> bool, stackOk: nat -> bool,
                    was: Rows, now: Rows)
    requires Imported(cfg, scheduleOk, tagOk, stackOk, was, now)
    ensures SchedulesImported(was.schedules, now.schedules, was.nextId, cfg.schedules, scheduleOk)
    ensures TagsImported(was.tags, now.tags, was.nextId + |cfg.schedules|, cfg.tags, tagOk)
    ensures StacksImported(was.stacks, now.stacks, was.nextId + |cfg.schedules| + |cfg.tags|, cfg.stacks, stackOk)
  {
    hide Entered, EnteredNames, SchedulesImported, TagsImported, StacksImported;
    SchedulesImport(cfg, was.schedules, now.schedules, was.nextId, scheduleOk);
    TagsImport(cfg, was.tags, now.tags, was.nextId + |cfg.schedules|, tagOk);
    StacksImport(cfg, was.stacks, now.stacks, was.nextId + |cfg.schedules| + |cfg.tags|, stackOk);
  }

  /** The row has the entry's fields; without a display name it shows its container's. */
  predicate ScheduleOfEntry(s: Schedule, id: Id, e: YamlConfig.ScheduleEntry) {
    && s.id == id && s.container == e.container && s.stackName == e.stackName
    && s.displayName == (if e.displayName == "" then e.container else e.displayName)
    && s.startCron == e.startCron && s.stopCron == e.stopCron && s.enabled == e.enabled && !s.onDemand && s.tagId.None?
  }

  predicate StackOfEntry(st: Stack, id: Id, e: YamlConfig.StackEntry) {
    && st.id == id && st.name == e.name && st.displayName == e.displayName
    && st.startCron == e.startCron && st.stopCron == e.stopCron && st.enabled == e.enabled && st.onDemand == e.onDemand
    && st.onDemandUrl == e.onDemandUrl && st.primaryContainer == e.primaryContainer
    && st.idleTimeoutSec == e.idleTimeoutSec && st.startupDelaySec == e.startupDelaySec
  }

  lemma AllThree(cfg: YamlConfig.Config, schedules: seq<Schedule>, tags: seq<Tag>, stacks: seq<Stack>,
                 firstTag: Id, firstStack: Id, scheduleOk: nat -> bool, tagOk: nat -> bool, stackOk: nat -> bool,
                 was: Rows, now: Rows)
    requires schedules == YamlConfig.FileSchedules(cfg) && tags == YamlConfig.FileTags(cfg)
    requires stacks == YamlConfig.FileStacks(cfg)
    requires firstTag == was.nextId + |schedules| && firstStack == firstTag + |tags| && now.nextId == firstStack + |stacks|
    requires Entered(was.schedules, now.schedules, was.nextId, schedules, NumberedSchedule, scheduleOk, |schedules|)
    requires EnteredNames(was.tags, now.tags, firstTag, tags, NumberedTag, TagName, tagOk)
    requires EnteredNames(was.stacks, now.stacks, firstStack, stacks, NumberedStack, StackName, stackOk)
    ensures Imported(cfg, scheduleOk, tagOk, stackOk, was, now)
  {
    hide Entered, EnteredNames;
  }

  lemma AppliedCoherently(was: map<Id, Schedule>, now: map<Id, Schedule>, tags: map<Id, Tag>, t: Id, containers: seq<string>,
                          created: seq<Schedule>)
    requires t in tags && Applied(was, now, tags[t], t, containers, created) && TagsAgree(was, tags)
    ensures TagsAgree(now, tags)
  {
    forall id | id in now ensures TagFits(now[id], tags) {
      if id in was { assert TagFits(was[id], tags); }
    }
  }

  lemma AppliedToNone(was: map<Id, Schedule>, now: map<Id, Schedule>, tag: Tag, t: Id, containers: seq<string>,
                      created: seq<Schedule>)
    requires Applied(was, now, tag, t, containers, created)
    ensures (forall c :: c in containers ==> HasRow(was, t, c)) ==> created == [] && now == was
  {
    if created != [] {
      assert created[0] in created;
      assert !HasRow(was, t, created[0].container);
    }
    if forall c :: c in containers ==> HasRow(was, t, c) {
      assert now.Keys == was.Keys;
    }
  }

  lemma RowsStay(was: map<Id, Schedule>, now: map<Id, Schedule>, t: Id)
    requires forall id :: id in was ==> id in now && now[id] == was[id]
    ensures forall c :: HasRow(was, t, c) ==> HasRow(now, t, c)
  {
    forall c | HasRow(was, t, c) ensures HasRow(now, t, c) {
      var id :| id in was && was[id].tagId == Some(t) && was[id].container == c;
      assert now[id].container == c;
    }
  }

  /** The first `k` listed rows have been rewritten. */
  ghost predicate RewrittenUpTo(was: map<Id, Schedule>, now: map<Id, Schedule>, t: Id, rows: seq<Schedule>,
                                listed: Id -> bool, rowOk: Id -> bool, f: Schedule -> Schedule, k: nat)
  {
    && now.Keys == was.Keys
    && (forall j :: 0 <= j < |rows| ==>
          rows[j].id in now && now[rows[j].id] == if j < k && rowOk(rows[j].id) then f(rows[j]) else rows[j])
    && (forall id :: id in was && !(was[id].tagId == Some(t) && listed(id)) ==> now[id] == was[id])
  }

  lemma NothingRewritten(was: map<Id, Schedule>, t: Id, rows: seq<Schedule>, listed: Id -> bool, rowOk: Id -> bool,
                         f: Schedule -> Schedule)
    requires Lists(rows, was, t, listed)
    ensures RewrittenUpTo(was, was, t, rows, listed, rowOk, f, 0)
  {
  }

  lemma NextToRewrite(was: map<Id, Schedule>, now: map<Id, Schedule>, t: Id, rows: seq<Schedule>,
                      listed: Id -> bool, rowOk: Id -> bool, f: Schedule -> Schedule, k: nat)
    requires k < |rows| && RewrittenUpTo(was, now, t, rows, listed, rowOk, f, k)
    ensures rows[k].id in now && now[rows[k].id] == rows[k]
  {
  }

  lemma RewrittenStep(was: map<Id, Schedule>, before: map<Id, Schedule>, now: map<Id, Schedule>, t: Id, rows: seq<Schedule>,
                      listed: Id -> bool, rowOk: Id -> bool, f: Schedule -> Schedule, k: nat)
    requires Lists(rows, was, t, listed) && k < |rows| && RewrittenUpTo(was, before, t, rows, listed, rowOk, f, k)
    requires now == if rowOk(rows[k].id) then before[rows[k].id := f(rows[k])] else before
    ensures RewrittenUpTo(was, now, t, rows, listed, rowOk, f, k + 1)
  {
    assert was[rows[k].id].tagId == Some(t) && listed(rows[k].id);
  }

  lemma RewrittenFrom(was: map<Id, Schedule>, now: map<Id, Schedule>, t: Id, rows: seq<Schedule>,
                      listed: Id -> bool, rowOk: Id -> bool, f: Schedule -> Schedule)
    requires Lists(rows, was, t, listed) && RewrittenUpTo(was, now, t, rows, listed, rowOk, f, |rows|)
    ensures now == Rewritten(was, t, listed, rowOk, f)
  {
    forall id | id in was && was[id].tagId == Some(t) && listed(id)
      ensures now[id] == if rowOk(id) then f(was[id]) else was[id]
    {
      var j :| 0 <= j < |rows| && rows[j] == was[id];
    }
  }

  /**
    Toggling a tag leaves every expression alone, and gives all its rows the flag
    exactly when each was rewritten or had it already.
    */
  lemma ToggledTag(was: map<Id, Schedule>, now: map<Id, Schedule>, oldTags: map<Id, Tag>, tags: map<Id, Tag>,
                   t: Id, enabled: bool, listed: Id -> bool, rowOk: Id -> bool)
    requires t in oldTags && tags == oldTags[t := oldTags[t].(enabled := enabled)]
    requires now == Rewritten(was, t, listed, rowOk, (s: Schedule) => s.(enabled := enabled))
    ensures TagsAgree(was, oldTags) ==> TagsAgree(now, tags)
    ensures ShareFlag(now, t, enabled) <==>
      forall id :: id in was && was[id].tagId == Some(t) ==> (listed(id) && rowOk(id)) || was[id].enabled == enabled
  {
    if TagsAgree(was, oldTags) {
      forall id | id in now ensures TagFits(now[id], tags) {
        assert TagFits(was[id], oldTags);
      }
    }
    if ShareFlag(now, t, enabled) {
      forall id | id in was && was[id].tagId == Some(t) ensures (listed(id) && rowOk(id)) || was[id].enabled == enabled {
        assert now[id].tagId == Some(t) && now[id].enabled == enabled;
      }
    }
  }

  /** After a tag's expressions change, its schedules agree with it exactly when all of them were rewritten. */
  lemma TagUpdateCoherence(was: map<Id, Schedule>, now: map<Id, Schedule>, oldTags: map<Id, Tag>, tags: map<Id, Tag>,
                           t: Id, row: Tag, changed: bool, listed: Id -> bool, rowOk: Id -> bool)
    requires TagsAgree(was, oldTags) && t in oldTags && tags == oldTags[t := row]
    requires changed <==> row.startCron != oldTags[t].startCron || row.stopCron != oldTags[t].stopCron
    requires now == if changed
      then Rewritten(was, t, listed, rowOk, (s: Schedule) => s.(startCron := row.startCron, stopCron := row.stopCron)) else was
    ensures TagsAgree(now, tags) <==>
      !changed || forall id :: id in was && was[id].tagId == Some(t) ==> listed(id) && rowOk(id)
  {
    if TagsAgree(now, tags) && changed {
      forall id | id in was && was[id].tagId == Some(t) ensures listed(id) && rowOk(id) {
        assert TagFits(was[id], oldTags) && TagFits(now[id], tags);
      }
    }
    if !changed || forall id :: id in was && was[id].tagId == Some(t) ==> listed(id) && rowOk(id) {
      forall id | id in now ensures TagFits(now[id], tags) {
        assert TagFits(was[id], oldTags);
      }
    }
  }

  // ---------- Runs ----------

  /** A decoded request, with what the database does to each statement it issues. */
  datatype Request =
    | CreateSchedule(schedule: Schedule, dbOk: bool)
    | UpdateSchedule(id: Id, schedule: Schedule, dbOk: bool)
    | DeleteSchedule(id: Id, dbOk: bool)
    | ToggleSchedule(id: Id, dbOk: bool)
    | ImportFile(cfg: YamlConfig.Config, scheduleOk: nat -> bool, tagOk: nat -> bool, stackOk: nat -> bool)
    | CreateTag(tag: Tag, dbOk: bool)
    | UpdateTag(id: Id, tag: Tag, dbOk: bool, listed: Id -> bool, rowOk: Id -> bool)
    | DeleteTag(id: Id, listed: Id -> bool, schedulesOk: bool, tagsOk: bool)
    | ToggleTag(id: Id, dbOk: bool, listed: Id -> bool, rowOk: Id -> bool)
    | ApplyTag(id: Id, containers: seq<string>, lookOk: nat -> bool, applyOk: nat -> bool)
    | RemoveTagFromContainer(id: Id, container: string, dbOk: bool)
    | CreateStack(stack: Stack, dbOk: bool)
    | UpdateStack(id: Id, stack: Stack, dbOk: bool)
    | DeleteStack(id: Id, dbOk: bool)
    | ToggleStack(id: Id, dbOk: bool)

  /** No direct create with a tag id, and no tag edit that stops half-way through its schedules. */
  ghost predicate TagSafe(r: Request) {
    && (r.CreateSchedule? ==> r.schedule.tagId.None?)
    && (r.UpdateTag? ==> forall id :: r.listed(id) && r.rowOk(id))
  }

  /** The tables, and the next id to hand out. */
  datatype Rows = Rows(schedules: map<Id, Schedule>, tags: map<Id, Tag>, stacks: map<Id, Stack>, nextId: Id) {
    /** The same rows but for the schedules, the tags or the stacks. */
    predicate WithSchedules(now: Rows, these: map<Id, Schedule>) {
      now.schedules == these && now.tags == tags && now.stacks == stacks
    }

    predicate WithTags(now: Rows, these: map<Id, Tag>) {
      now.schedules == schedules && now.tags == these && now.stacks == stacks
    }

    predicate WithStacks(now: Rows, these: map<Id, Stack>) {
      now.schedules == schedules && now.tags == tags && now.stacks == these
    }
  }

  /** What a schedule request does to the rows: the one change it asks for, or nothing. */
  ghost predicate ScheduleRequestDid(syntax: CronSyntax, urlParses: string -> bool, r: Request, was: Rows, now: Rows)
    requires r.CreateSchedule? || r.UpdateSchedule? || r.DeleteSchedule? || r.ToggleSchedule?
  {
    var rows := was.schedules;
    was.WithSchedules(now,
      match r
      case CreateSchedule(req, dbOk) =>
        var row := req.(id := was.nextId);
        if GoodSchedule(syntax, urlParses, req) && dbOk && !PairTaken(rows, row) then rows[row.id := row] else rows
      case UpdateSchedule(id, req, dbOk) =>
        if ScheduleEditTaken(syntax, urlParses, rows, id, req, dbOk)
        then rows[id := req.(id := id, tagId := rows[id].tagId)] else rows
      case DeleteSchedule(id, dbOk) => if dbOk then rows - {id} else rows
      case ToggleSchedule(id, dbOk) =>
        if id in rows && dbOk then rows[id := rows[id].(enabled := !rows[id].enabled)] else rows)
  }

  ghost predicate StackRequestDid(syntax: CronSyntax, r: Request, was: Rows, now: Rows)
    requires r.CreateStack? || r.UpdateStack? || r.DeleteStack? || r.ToggleStack?
  {
    var rows := was.stacks;
    was.WithStacks(now,
      match r
      case CreateStack(req, dbOk) =>
        var row := req.(id := was.nextId, name := Text.TrimSpace(req.name));
        if GoodStack(syntax, row) && dbOk && !StackNameTaken(rows, row) then rows[row.id := row] else rows
      case UpdateStack(id, req, dbOk) =>
        if StackEditTaken(syntax, rows, id, req, dbOk) then rows[id := req.(id := id)] else rows
      case DeleteStack(id, dbOk) => if dbOk then rows - {id} else rows
      case ToggleStack(id, dbOk) =>
        if id in rows && dbOk then rows[id := rows[id].(enabled := !rows[id].enabled)] else rows)
  }

  /** What a tag request does to the tags, and through them to their schedules. */
  ghost predicate TagRequestDid(syntax: CronSyntax, r: Request, was: Rows, now: Rows)
    requires r.CreateTag? || r.UpdateTag? || r.DeleteTag? || r.ToggleTag? || r.ApplyTag? || r.RemoveTagFromContainer?
  {
    match r
    case CreateTag(req, dbOk) =>
      var row := req.(id := was.nextId, name := Text.TrimSpace(req.name));
      was.WithTags(now,
        if GoodTag(syntax, row) && dbOk && !TagNameTaken(was.tags, row) then was.tags[row.id := row] else was.tags)
    case UpdateTag(t, req, dbOk, listed, rowOk) =>
      if !TagEditTaken(syntax, was.tags, t, req, dbOk) then was.WithTags(now, was.tags)
      else
        var startCron := if req.startCron == "" then was.tags[t].startCron else req.startCron;
        var stopCron := if req.stopCron == "" then was.tags[t].stopCron else req.stopCron;
        && now.tags == was.tags[t := Tag(t, req.name, startCron, stopCron, req.enabled)] && now.stacks == was.stacks
        && if startCron == was.tags[t].startCron && stopCron == was.tags[t].stopCron then now.schedules == was.schedules
           else CarryExpressions(was.schedules, now.schedules, t, startCron, stopCron, listed, rowOk)
    case ToggleTag(t, dbOk, listed, rowOk) =>
      if t !in was.tags || !dbOk then was.WithTags(now, was.tags)
      else
        var enabled := !was.tags[t].enabled;
        && now.tags == was.tags[t := was.tags[t].(enabled := enabled)] && now.stacks == was.stacks
        && now.schedules == Rewritten(was.schedules, t, listed, rowOk, (s: Schedule) => s.(enabled := enabled))
    case DeleteTag(t, _, schedulesOk, tagsOk) =>
      if !schedulesOk || !tagsOk then was.WithTags(now, was.tags)
      else
        && now.tags == was.tags - {t} && now.stacks == was.stacks
        && now.schedules == Untagged(was.schedules, t)
    case ApplyTag(t, containers, lookOk, applyOk) =>
      && was.WithSchedules(now, now.schedules)
      && if t !in was.tags || containers == [] then now.schedules == was.schedules
         else
           && (exists created :: Applied(was.schedules, now.schedules, was.tags[t], t, containers, created))
           && AskedFor(was.schedules, now.schedules, t, containers, applyOk)
    case RemoveTagFromContainer(t, container, dbOk) =>
      was.WithSchedules(now,
        if !dbOk then was.schedules
        else map id | id in was.schedules &&
               !(was.schedules[id].tagId == Some(t) && was.schedules[id].container == container) :: was.schedules[id])
  }

  ghost predicate ImportDid(syntax: CronSyntax, r: Request, was: Rows, now: Rows)
    requires r.ImportFile?
  {
    var cfg := r.cfg;
    if !YamlConfig.TagsPass(syntax.parses, cfg) || !YamlConfig.SchedulesPass(syntax.parses, cfg)
       || !YamlConfig.StacksPass(syntax.parses, cfg)
    then was.WithSchedules(now, was.schedules)
    else
      && Imported(cfg, r.scheduleOk, r.tagOk, r.stackOk, was, now)
      && |was.schedules| <= |now.schedules| <= |was.schedules| + |cfg.schedules|
      && |was.tags| <= |now.tags| <= |was.tags| + |cfg.tags|
      && |was.stacks| <= |now.stacks| <= |was.stacks| + |cfg.stacks|
  }

  /** What a request does to the rows; ids once handed out are not handed out again. */
  ghost predicate Did(syntax: CronSyntax, urlParses: string -> bool, r: Request, was: Rows, now: Rows) {
    was.nextId <= now.nextId &&
    if r.CreateSchedule? || r.UpdateSchedule? || r.DeleteSchedule? || r.ToggleSchedule? then
      ScheduleRequestDid(syntax, urlParses, r, was, now)
    else if r.ImportFile? then ImportDid(syntax, r, was, now)
    else if r.CreateStack? || r.UpdateStack? || r.DeleteStack? || r.ToggleStack? then StackRequestDid(syntax, r, was, now)
    else TagRequestDid(syntax, r, was, now)
  }

  /** The rows whose registrations a request other than a deletion sets right: those it writes, and every id it draws. */
  function Written(syntax: CronSyntax, urlParses: string -> bool, r: Request, was: Rows, next: Id): set<Id> {
    match r
    case UpdateSchedule(id, req, dbOk) =>
      if ScheduleEditTaken(syntax, urlParses, was.schedules, id, req, dbOk) then {id} else {}
    case DeleteSchedule(id, dbOk) => if id in was.schedules && dbOk then {id} else {}
    case ToggleSchedule(id, dbOk) => if id in was.schedules && dbOk then {id} else {}
    case UpdateTag(t, req, dbOk, listed, rowOk) =>
      if TagEditTaken(syntax, was.tags, t, req, dbOk) && TagCronChanged(was.tags, t, req)
      then WrittenRows(was.schedules, t, listed, rowOk) else {}
    case ToggleTag(t, dbOk, listed, rowOk) =>
      if t in was.tags && dbOk then WrittenRows(was.schedules, t, listed, rowOk) else {}
    case RemoveTagFromContainer(t, container, dbOk) => if dbOk then RowsOf(was.schedules, t, container) else {}
    case UpdateStack(id, req, dbOk) => if StackEditTaken(syntax, was.stacks, id, req, dbOk) then {id} else {}
    case ToggleStack(id, dbOk) => if id in was.stacks && dbOk then {id} else {}
    case _ => Fresh(was.nextId, next)
  }

  /**
    What a request does to the registry.  The two deletions unregister what they list
    or name, whatever becomes of the rows; every other request leaves the registrations
    of the rows it writes as they should be, lagging or not, and all others as they were.
    */
  ghost predicate RegistryDid(syntax: CronSyntax, urlParses: string -> bool, r: Request, was: Moment, now: Moment) {
    match r
    case DeleteTag(t, listed, _, _) => now.table == was.table - ListedRows(was.rows.schedules, t, listed)
    case DeleteStack(id, _) => now.table == if id in was.rows.stacks then was.table - {id} else was.table
    case _ => Reached(syntax, was.Seen(), now.Seen(), Written(syntax, urlParses, r, was.rows, now.rows.nextId))
  }

  /** The request does not go half-way through a deletion: what it unregisters and was registered is what it deletes. */
  ghost predicate SettlesAt(r: Request, v: View) {
    match r
    case DeleteTag(t, listed, schedulesOk, tagsOk) => DeletedWhatWasListed(v, t, listed, schedulesOk && tagsOk)
    case DeleteStack(id, dbOk) => id !in v.stacks || dbOk || id !in v.table
    case _ => true
  }

  /** The request left the registry behind on another row exactly when it went half-way through a deletion. */
  ghost predicate RegistryStepped(syntax: CronSyntax, urlParses: string -> bool, r: Request, was: Moment, now: Moment) {
    && RegistryDid(syntax, urlParses, r, was, now)
    && (now.Seen().Lag(syntax) <= was.Seen().Lag(syntax) <==> SettlesAt(r, was.Seen()))
  }

  lemma TagDeletionIs(syntax: CronSyntax, urlParses: string -> bool, r: Request, was: Moment, now: Moment)
    requires r.DeleteTag? && now.table == was.table - ListedRows(was.rows.schedules, r.id, r.listed)
    requires now.Seen().Lag(syntax) <= was.Seen().Lag(syntax) <==>
      DeletedWhatWasListed(was.Seen(), r.id, r.listed, r.schedulesOk && r.tagsOk)
    ensures RegistryStepped(syntax, urlParses, r, was, now)
  {
  }

  lemma StackDeletionIs(syntax: CronSyntax, urlParses: string -> bool, r: Request, was: Moment, now: Moment)
    requires r.DeleteStack? && now.table == if r.id in was.rows.stacks then was.table - {r.id} else was.table
    requires now.Seen().Lag(syntax) <= was.Seen().Lag(syntax) <==> r.id !in was.rows.stacks || r.dbOk || r.id !in was.table
    ensures RegistryStepped(syntax, urlParses, r, was, now)
  {
  }

  method HandleSchedule(server: Server, r: Request)
    requires r.CreateSchedule? || r.UpdateSchedule? || r.DeleteSchedule? || r.ToggleSchedule?
    requires server.Sound()
    modifies server.store, server.sched
    ensures server.store.nextId >= old(server.store.nextId)
    ensures server.Sound()
    ensures RegistryStepped(server.sched.syntax, server.urlParses, r, old(server.Captured()), server.Captured())
    ensures TagSafe(r) && old(server.Coherent()) ==> server.Coherent()
    ensures ScheduleRequestDid(server.sched.syntax, server.urlParses, r, old(server.Stored()), server.Stored())
  {
    hide Server.Sound, Server.CaughtUp, RegistryStepped, Fresh, View.Lag, Store.Valid, Scheduler.Valid, Scheduler.Table;
    hide GoodSchedule, ScheduleEditTaken, PairTaken, TagsAgree;
    server.SoundNow();
    ghost var was := server.Captured();
    match r
    case CreateSchedule(s, dbOk) =>
      var status := server.CreateSchedule(s, dbOk);
      server.Followed(r, was);
    case UpdateSchedule(id, s, dbOk) =>
      var status := server.UpdateSchedule(id, s, dbOk);
      server.Followed(r, was);
    case DeleteSchedule(id, dbOk) =>
      var status := server.DeleteSchedule(id, dbOk);
      server.Followed(r, was);
    case ToggleSchedule(id, dbOk) =>
      var status := server.ToggleSchedule(id, dbOk);
      server.Followed(r, was);
  }

  method HandleTag(server: Server, r: Request)
    requires r.CreateTag? || r.UpdateTag? || r.DeleteTag? || r.ToggleTag? || r.ApplyTag? || r.RemoveTagFromContainer?
    requires server.Sound()
    modifies server.store, server.sched
    ensures server.store.nextId >= old(server.store.nextId)
    ensures server.Sound()
    ensures RegistryStepped(server.sched.syntax, server.urlParses, r, old(server.Captured()), server.Captured())
    ensures TagSafe(r) && old(server.Coherent()) ==> server.Coherent()
    ensures TagRequestDid(server.sched.syntax, r, old(server.Stored()), server.Stored())
  {
    hide Server.Sound, Server.CaughtUp, RegistryStepped, Fresh, View.Lag, Store.Valid, Scheduler.Valid, Scheduler.Table;
    hide WrittenRows, TagEditTaken, GoodTag, TagNameTaken, Rewritten, Applied, TagsAgree, EditedTag, RowsOf, CarryExpressions,
      Untagged, ShareFlag, DeletionLags, DeletedWhatWasListed, HasRow, AskedFor;
    server.SoundNow();
    ghost var was := server.Captured();
    match r
    case CreateTag(tag, dbOk) =>
      var status := server.CreateTag(tag, dbOk);
      server.Followed(r, was);
    case UpdateTag(id, tag, dbOk, listed, rowOk) =>
      var status := server.UpdateTag(id, tag, dbOk, listed, rowOk);
      server.Followed(r, was);
    case DeleteTag(id, listed, schedulesOk, tagsOk) =>
      var _ := server.DeleteTag(id, listed, schedulesOk, tagsOk);
      server.SoundNow();
      TagDeletionIs(server.sched.syntax, server.urlParses, r, was, server.Captured());
    case ToggleTag(id, dbOk, listed, rowOk) =>
      var status := server.ToggleTag(id, dbOk, listed, rowOk);
      server.Followed(r, was);
    case ApplyTag(_, _, _, _) =>
      HandleTagOnContainers(server, r);
    case RemoveTagFromContainer(_, _, _) =>
      HandleTagOnContainers(server, r);
  }

  method HandleTagOnContainers(server: Server, r: Request)
    requires r.ApplyTag? || r.RemoveTagFromContainer?
    requires server.Sound()
    modifies server.store, server.sched
    ensures server.store.nextId >= old(server.store.nextId)
    ensures server.Sound()
    ensures RegistryStepped(server.sched.syntax, server.urlParses, r, old(server.Captured()), server.Captured())
    ensures TagSafe(r) && old(server.Coherent()) ==> server.Coherent()
    ensures TagRequestDid(server.sched.syntax, r, old(server.Stored()), server.Stored())
  {
    hide Server.Sound, Server.CaughtUp, RegistryStepped, Fresh, View.Lag, Store.Valid, Scheduler.Valid, Scheduler.Table;
    hide Applied, AskedFor, TagsAgree, RowsOf;
    server.SoundNow();
    ghost var was := server.Captured();
    match r
    case ApplyTag(id, containers, lookOk, applyOk) =>
      var status, created, skipped := server.ApplyTag(id, containers, lookOk, applyOk);
      server.Followed(r, was);
      if status == OK {
        assert Applied(was.rows.schedules, server.store.schedules, was.rows.tags[id], id, containers, created);
      }
    case RemoveTagFromContainer(id, container, dbOk) =>
      var status := server.RemoveTagFromContainer(id, container, dbOk);
      server.Followed(r, was);
  }

  method HandleStack(server: Server, r: Request)
    requires r.CreateStack? || r.UpdateStack? || r.DeleteStack? || r.ToggleStack?
    requires server.Sound()
    modifies server.store, server.sched
    ensures server.store.nextId >= old(server.store.nextId)
    ensures server.Sound()
    ensures RegistryStepped(server.sched.syntax, server.urlParses, r, old(server.Captured()), server.Captured())
    ensures old(server.Coherent()) ==> server.Coherent()
    ensures StackRequestDid(server.sched.syntax, r, old(server.Stored()), server.Stored())
  {
    hide Server.Sound, Server.CaughtUp, RegistryStepped, Fresh, View.Lag, Store.Valid, Scheduler.Valid, Scheduler.Table;
    hide GoodStack, StackEditTaken, StackNameTaken, TagsAgree;
    server.SoundNow();
    ghost var was := server.Captured();
    match r
    case CreateStack(st, dbOk) =>
      var status := server.CreateStack(st, dbOk);
      server.Followed(r, was);
    case UpdateStack(id, st, dbOk) =>
      var status := server.UpdateStack(id, st, dbOk);
      server.Followed(r, was);
    case DeleteStack(id, dbOk) =>
      var _ := server.DeleteStack(id, dbOk);
      server.SoundNow();
      StackDeletionIs(server.sched.syntax, server.urlParses, r, was, server.Captured());
    case ToggleStack(id, dbOk) =>
      var status := server.ToggleStack(id, dbOk);
      server.Followed(r, was);
  }

  /** One request: it does to the rows what it should, and the registry follows. */
  method Handle(server: Server, r: Request)
    requires server.Sound()
    modifies server.store, server.sched
    ensures server.Sound()
    ensures RegistryStepped(server.sched.syntax, server.urlParses, r, old(server.Captured()), server.Captured())
    ensures TagSafe(r) && old(server.Coherent()) ==> server.Coherent()
    ensures Did(server.sched.syntax, server.urlParses, r, old(server.Stored()), server.Stored())
  {
    hide Server.Sound, Server.CaughtUp, RegistryStepped, Tracks, Fresh, View.Lag, Store.Valid, Scheduler.Valid, Scheduler.Table,
      Server.Coherent, ScheduleRequestDid, TagRequestDid, StackRequestDid, Imported;
    server.SoundNow();
    if r.CreateSchedule? || r.UpdateSchedule? || r.DeleteSchedule? || r.ToggleSchedule? {
      HandleSchedule(server, r);
    } else if r.ImportFile? {
      ghost var was := server.Captured();
      var status, n, t, st := server.Import(r.cfg, r.scheduleOk, r.tagOk, r.stackOk);
      assert status == OK ==> Counted(old(server.Stored()), server.Stored(), n, t, st);
      server.Followed(r, was);
    } else if r.CreateStack? || r.UpdateStack? || r.DeleteStack? || r.ToggleStack? {
      HandleStack(server, r);
    } else {
      HandleTag(server, r);
    }
  }

  /** The boot sequence: register every enabled schedule, then every enabled stack. */
  method Boot(store: Store, syntax: CronSyntax) returns (sched: Scheduler)
    requires store.Valid()
    ensures fresh(sched) && sched.syntax == syntax && sched.Valid()
    ensures sched.Table() == Demand(syntax, store.schedules, store.stacks)
  {
    hide Consistent, TableOf, Demand;
    sched := new Scheduler(syntax);
    NothingDemanded(syntax);
    BootSchedules(sched, store);
    BootStacks(sched, store);
  }

  /** The first `k` listed rows, as a table. */
  ghost predicate Loaded<T>(loaded: map<Id, T>, rows: seq<T>, idOf: T -> Id, k: nat)
    requires k <= |rows|
  {
    && (forall id :: id in loaded ==> exists j :: 0 <= j < k && idOf(rows[j]) == id)
    && (forall j :: 0 <= j < k ==> idOf(rows[j]) in loaded && loaded[idOf(rows[j])] == rows[j])
  }

  lemma NothingLoaded<T>(rows: seq<T>, idOf: T -> Id)
    ensures Loaded(map[], rows, idOf, 0)
  {
  }

  lemma LoadedStep<T>(loaded: map<Id, T>, rows: seq<T>, idOf: T -> Id, k: nat)
    requires k < |rows| && Loaded(loaded, rows, idOf, k)
    requires forall i, j :: 0 <= i < j < |rows| ==> idOf(rows[i]) != idOf(rows[j])
    ensures idOf(rows[k]) !in loaded
    ensures Loaded(loaded[idOf(rows[k]) := rows[k]], rows, idOf, k + 1)
  {
    var now := loaded[idOf(rows[k]) := rows[k]];
    forall id | id in now ensures exists j :: 0 <= j < k + 1 && idOf(rows[j]) == id {
      if id != idOf(rows[k]) {
        var j :| 0 <= j < k && idOf(rows[j]) == id;
      }
    }
  }

  lemma LoadedAll<T>(loaded: map<Id, T>, rows: seq<T>, idOf: T -> Id, table: map<Id, T>)
    requires Loaded(loaded, rows, idOf, |rows|)
    requires forall k :: 0 <= k < |rows| ==> idOf(rows[k]) in table && table[idOf(rows[k])] == rows[k]
    requires forall id :: id in table ==> idOf(table[id]) == id && table[id] in rows
    ensures loaded == table
  {
    forall id | id in table ensures id in loaded {
      var j :| 0 <= j < |rows| && rows[j] == table[id];
    }
  }

  method BootSchedules(sched: Scheduler, store: Store)
    requires store.Valid() && sched.Valid() && sched.Table() == Demand(sched.syntax, map[], map[])
    modifies sched
    ensures sched.Valid() && sched.Table() == Demand(sched.syntax, store.schedules, map[])
  {
    hide Consistent, TableOf, Demand, Loaded;
    var rows := store.ListSchedules();
    ghost var loaded: map<Id, Schedule> := map[];
    ghost var idOf := (s: Schedule) => s.id;
    NothingLoaded(rows, idOf);
    for k := 0 to |rows|
      invariant sched.Valid() && sched.Table() == Demand(sched.syntax, loaded, map[])
      invariant Loaded(loaded, rows, idOf, k)
    {
      LoadedStep(loaded, rows, idOf, k);
      BootSchedule(sched, loaded, rows[k]);
      loaded := loaded[rows[k].id := rows[k]];
    }
    LoadedAll(loaded, rows, idOf, store.schedules);
  }

  method BootStacks(sched: Scheduler, store: Store)
    requires store.Valid() && sched.Valid() && sched.Table() == Demand(sched.syntax, store.schedules, map[])
    modifies sched
    ensures sched.Valid() && sched.Table() == Demand(sched.syntax, store.schedules, store.stacks)
  {
    hide Consistent, TableOf, Demand, Loaded;
    var rows := store.ListStacks();
    ghost var loaded: map<Id, Stack> := map[];
    ghost var idOf := (st: Stack) => st.id;
    NothingLoaded(rows, idOf);
    for k := 0 to |rows|
      invariant sched.Valid() && sched.Table() == Demand(sched.syntax, store.schedules, loaded)
      invariant Loaded(loaded, rows, idOf, k)
    {
      LoadedStep(loaded, rows, idOf, k);
      BootStack(sched, store.schedules, loaded, rows[k]);
      loaded := loaded[rows[k].id := rows[k]];
    }
    LoadedAll(loaded, rows, idOf, store.stacks);
  }

  method BootSchedule(sched: Scheduler, ghost loaded: map<Id, Schedule>, s: Schedule)
    requires sched.Valid() && s.id !in loaded
    requires sched.Table() == Demand(sched.syntax, loaded, map[])
    modifies sched
    ensures sched.Valid() && sched.Table() == Demand(sched.syntax, loaded[s.id := s], map[])
  {
    hide Consistent, TableOf, Demand;
    DemandOfSchedule(sched.syntax, loaded, map[], s);
    DemandAt(sched.syntax, loaded, map[], s.id);
    assert sched.Table() - {s.id} == sched.Table();
    if s.enabled { var _ := sched.AddSchedule(s); }
  }

  method BootStack(sched: Scheduler, ghost loaded: map<Id, Schedule>, ghost stacks: map<Id, Stack>, st: Stack)
    requires sched.Valid() && st.id !in loaded && st.id !in stacks
    requires sched.Table() == Demand(sched.syntax, loaded, stacks)
    modifies sched
    ensures sched.Valid() && sched.Table() == Demand(sched.syntax, loaded, stacks[st.id := st])
  {
    hide Consistent, TableOf, Demand;
    DemandOfStack(sched.syntax, loaded, stacks, st);
    DemandAt(sched.syntax, loaded, stacks, st.id);
    assert sched.Table() - {st.id} == sched.Table();
    if st.enabled { var _ := sched.AddStack(st); }
  }

  lemma NothingDemanded(syntax: CronSyntax)
    ensures Demand(syntax, map[], map[]) == map[]
  {
  }

  /** The rows, the registry, and the live entries of the cron runner at one moment. */
  datatype Moment = Moment(rows: Rows, table: Registrations, entries: map<EntryId, CronEntry>) {
    function Seen(): View { View(rows.schedules, rows.stacks, rows.nextId, table) }
  }

  /** Every live entry does what its row, if it is still stored, asks for. */
  ghost predicate FiresAsStored(m: Moment) {
    forall e :: e in m.entries ==> EntryFits(m.rows.schedules, m.rows.stacks, m.entries[e])
  }

  /** Every enabled stored row whose expressions are taken fires for each of them, unless the registry lags behind on it. */
  ghost predicate StoredRowsFire(syntax: CronSyntax, m: Moment) {
    && (forall id :: id in m.rows.schedules && id !in m.Seen().Lag(syntax) ==>
          ScheduleFires(syntax, m.entries, id, m.rows.schedules[id]))
    && (forall id :: id in m.rows.stacks && id !in m.Seen().Lag(syntax) ==>
          StackFires(syntax, m.entries, id, m.rows.stacks[id]))
  }

  ghost predicate ScheduleFires(syntax: CronSyntax, entries: map<EntryId, CronEntry>, id: Id, s: Schedule) {
    Due(syntax, s.enabled, s.startCron, s.stopCron) ==>
      && (s.startCron != "" ==> Live(entries, CronEntry(s.startCron, StartContainer(id, s.container))))
      && (s.stopCron != "" ==> Live(entries, CronEntry(s.stopCron, StopContainer(id, s.container))))
  }

  ghost predicate StackFires(syntax: CronSyntax, entries: map<EntryId, CronEntry>, id: Id, st: Stack) {
    Due(syntax, st.enabled, st.startCron, st.stopCron) ==>
      && (st.startCron != "" ==> Live(entries, CronEntry(st.startCron, FireStack(id, st.name, true))))
      && (st.stopCron != "" ==> Live(entries, CronEntry(st.stopCron, FireStack(id, st.name, false))))
  }

  lemma RegisteredRowsFire(syntax: CronSyntax, m: Moment)
    requires Tracks(syntax, m.Seen()) && Keyed(m.Seen())
    requires forall id, x :: id in m.table && x in m.table[id] ==> Live(m.entries, x)
    ensures StoredRowsFire(syntax, m)
  {
    hide Tracks, Keyed, View.Lag, Due, Live;
    var v := m.Seen();
    forall id | id in v.schedules && id !in v.Lag(syntax) ensures ScheduleFires(syntax, m.entries, id, v.schedules[id]) {
      StoredAreRegistered(syntax, v, id);
    }
    forall id | id in v.stacks && id !in v.Lag(syntax) ensures StackFires(syntax, m.entries, id, v.stacks[id]) {
      StoredAreRegistered(syntax, v, id);
    }
  }

  /** One step of a run: what the request did to the rows and to the registry, and when it left the registry behind. */
  ghost predicate Stepped(syntax: CronSyntax, urlParses: string -> bool, r: Request, was: Moment, now: Moment) {
    && Did(syntax, urlParses, r, was.rows, now.rows)
    && RegistryStepped(syntax, urlParses, r, was, now)
  }

  /**
    Incremental against rebuild, over every run: boot from any valid store, serve any
    sequence of requests one at a time, and boot another scheduler from the rows as
    they then stand.  At every moment each live entry has one owner and the registry
    tracks the rows; what fires is what the stored rows ask for, and every enabled one
    fires unless the registry lags behind on it.  The two registries agree on all rows but those the first lags
    behind on, and are the same up to entry ids exactly when there are none; a request
    makes the registry lag behind on another row exactly when it goes half-way through
    a deletion.  Tag coherence, once true, is kept by tag-safe requests.
    */
  method ServeAndCompare(store: Store, syntax: CronSyntax, urlParses: string -> bool, requests: seq<Request>)
    returns (sched: Scheduler, rebuilt: Scheduler, ghost renaming: map<EntryId, EntryId>, ghost history: seq<Moment>)
    requires store.Valid()
    modifies store
    ensures store.Valid() && sched.Valid()
    ensures rebuilt.Valid() && rebuilt.Table() == Demand(syntax, store.schedules, store.stacks)
    ensures |history| == |requests| + 1
    ensures history[0].rows == old(Rows(store.schedules, store.tags, store.stacks, store.nextId))
    ensures history[0].Seen().Lag(syntax) == {}
    ensures history[|requests|]
         == Moment(Rows(store.schedules, store.tags, store.stacks, store.nextId), sched.Table(), sched.entries)
    ensures forall k :: 0 <= k < |requests| ==> Stepped(syntax, urlParses, requests[k], history[k], history[k + 1])
    ensures forall k :: 0 <= k <= |requests| ==> Tracks(syntax, history[k].Seen())
    ensures forall k :: 0 <= k <= |requests| ==> FiresAsStored(history[k]) && StoredRowsFire(syntax, history[k])
    ensures var lag := history[|requests|].Seen().Lag(syntax);
      && sched.Table() - lag == rebuilt.Table() - lag
      && (lag == {} ==> SameUpToIds(sched.jobs, sched.entries, rebuilt.jobs, rebuilt.entries, renaming))
      && (forall any :: SameUpToIds(sched.jobs, sched.entries, rebuilt.jobs, rebuilt.entries, any) ==> lag == {})
      && ((forall k :: 0 <= k < |requests| ==> SettlesAt(requests[k], history[k].Seen())) ==> lag == {})
    ensures old(TagsAgree(store.schedules, store.tags)) && (forall k :: 0 <= k < |requests| ==> TagSafe(requests[k])) ==>
      TagsAgree(store.schedules, store.tags)
  {
    hide Consistent, TableOf, Demand, SameUpToIds, TagsAgree, Did, RegistryStepped, SettlesAt, Tracks, Store.Valid, View.Lag,
      Stepped, FiresAsStored, StoredRowsFire;
    sched := Boot(store, syntax);
    var server := new Server(store, sched, urlParses);
    server.ReadyWithoutLag();
    server.FiresNow();
    history := [server.Captured()];
    for k := 0 to |requests|
      invariant server.Sound()
      invariant |history| == k + 1 && history[k] == server.Captured()
      invariant history[0].rows == old(Rows(store.schedules, store.tags, store.stacks, store.nextId))
      invariant history[0].Seen().Lag(syntax) == {}
      invariant forall j :: 0 <= j < k ==> Stepped(syntax, urlParses, requests[j], history[j], history[j + 1])
      invariant forall j :: 0 <= j <= k ==> Tracks(syntax, history[j].Seen())
      invariant forall j :: 0 <= j <= k ==> FiresAsStored(history[j]) && StoredRowsFire(syntax, history[j])
      invariant old(TagsAgree(store.schedules, store.tags)) && (forall j :: 0 <= j < k ==> TagSafe(requests[j])) ==>
        server.Coherent()
    {
      ghost var was := server.Captured();
      Handle(server, requests[k]);
      StepOf(syntax, urlParses, requests[k], was, server.Captured());
      server.FiresNow();
      history := history + [server.Captured()];
    }
    rebuilt := Boot(store, syntax);
    EqualOffLag(syntax, server.Present());
    AnyRenamingMeansSameTable(sched.jobs, sched.entries, sched.nextEntry,
                              rebuilt.jobs, rebuilt.entries, rebuilt.nextEntry);
    LagOfRun(syntax, urlParses, requests, history, |requests|);
    renaming := map[];
    if server.Lagging() == {} {
      renaming := TableDeterminesEntries(sched.jobs, sched.entries, sched.nextEntry,
                                         rebuilt.jobs, rebuilt.entries, rebuilt.nextEntry);
    }
  }

  lemma StepOf(syntax: CronSyntax, urlParses: string -> bool, r: Request, was: Moment, now: Moment)
    requires Did(syntax, urlParses, r, was.rows, now.rows) && RegistryStepped(syntax, urlParses, r, was, now)
    ensures Stepped(syntax, urlParses, r, was, now)
  {
  }

  /** Without a half-way deletion a run never falls behind. */
  lemma {:induction false} LagOfRun(syntax: CronSyntax, urlParses: string -> bool, requests: seq<Request>,
                                    history: seq<Moment>, n: nat)
    requires |history| == |requests| + 1 && n <= |requests| && history[0].Seen().Lag(syntax) == {}
    requires forall k :: 0 <= k < |requests| ==> Stepped(syntax, urlParses, requests[k], history[k], history[k + 1])
    ensures (forall k :: 0 <= k < |requests| ==> SettlesAt(requests[k], history[k].Seen())) ==>
      history[n].Seen().Lag(syntax) == {}
  {
    hide Did, RegistryDid, SettlesAt, View.Lag;
    if n > 0 {
      LagOfRun(syntax, urlParses, requests, history, n - 1);
      assert Stepped(syntax, urlParses, requests[n - 1], history[n - 1], history[n]);
    }
  }

  // ---------- Tags in a run ----------

  /** Every tag-derived schedule's tag exists. */
  ghost predicate TagsExist(rows: Rows) {
    forall id :: id in rows.schedules ==> TagExists(rows.schedules[id], rows.tags)
  }

  predicate TagExists(s: Schedule, tags: map<Id, Tag>) { s.tagId.Some? ==> s.tagId.value in tags }

  /** Only a direct create can name a tag that is not there. */
  predicate NamesTag(r: Request, tags: map<Id, Tag>) {
    r.CreateSchedule? ==> TagExists(r.schedule, tags)
  }

  lemma TagsExistAfterScheduleRequest(syntax: CronSyntax, urlParses: string -> bool, r: Request, was: Rows, now: Rows)
    requires r.CreateSchedule? || r.UpdateSchedule? || r.DeleteSchedule? || r.ToggleSchedule?
    requires ScheduleRequestDid(syntax, urlParses, r, was, now) && TagsExist(was) && NamesTag(r, was.tags)
    ensures TagsExist(now)
  {
    hide PairTaken, GoodSchedule, GoodScheduleUpdate, KeepsTagCron;
  }

  /** The rows and their tags are the same. */
  ghost predicate SameTags(was: map<Id, Schedule>, now: map<Id, Schedule>) {
    now.Keys == was.Keys && forall id :: id in was ==> now[id].tagId == was[id].tagId
  }

  lemma CarriedTags(was: map<Id, Schedule>, now: map<Id, Schedule>, t: Id, tag: Tag, listed: Id -> bool, rowOk: Id -> bool)
    ensures CarryExpressions(was, now, t, tag.startCron, tag.stopCron, listed, rowOk) ==> SameTags(was, now)
  {
  }

  lemma RewrittenTags(was: map<Id, Schedule>, t: Id, listed: Id -> bool, rowOk: Id -> bool, enabled: bool)
    ensures SameTags(was, Rewritten(was, t, listed, rowOk, (s: Schedule) => s.(enabled := enabled)))
  {
  }

  lemma AppliedTags(was: map<Id, Schedule>, now: map<Id, Schedule>, tag: Tag, t: Id, containers: seq<string>)
    ensures (exists created :: Applied(was, now, tag, t, containers, created)) ==>
      forall id :: id in now ==> (id in was && now[id] == was[id]) || now[id].tagId == Some(t)
  {
  }

  lemma TagsExistAfterTagRequest(syntax: CronSyntax, r: Request, was: Rows, now: Rows)
    requires r.CreateTag? || r.UpdateTag? || r.DeleteTag? || r.ToggleTag? || r.ApplyTag? || r.RemoveTagFromContainer?
    requires TagRequestDid(syntax, r, was, now) && TagsExist(was)
    ensures TagsExist(now)
  {
    hide TagNameTaken, GoodTag, AskedFor, TagEditTaken, HasRow, Applied, Plain, Text.TrimSpace, CarryExpressions, Rewritten;
    if r.UpdateTag? && TagEditTaken(syntax, was.tags, r.id, r.tag, r.dbOk) {
      EditParses(syntax, was.tags, r.id, r.tag, r.dbOk);
      CarriedTags(was.schedules, now.schedules, r.id, now.tags[r.id], r.listed, r.rowOk);
    } else if r.ToggleTag? {
      RewrittenTags(was.schedules, r.id, r.listed, r.rowOk, r.id in was.tags && !was.tags[r.id].enabled);
    } else if r.ApplyTag? && r.id in was.tags {
      AppliedTags(was.schedules, now.schedules, was.tags[r.id], r.id, r.containers);
    }
    forall id | id in now.schedules ensures TagExists(now.schedules[id], now.tags) {
      if id in was.schedules { assert TagExists(was.schedules[id], was.tags); }
    }
  }

  lemma UntaggedGoIn(was: map<Id, Schedule>, now: map<Id, Schedule>, first: Id, list: seq<Schedule>, enters: nat -> bool)
    requires Entered(was, now, first, list, NumberedSchedule, enters, |list|)
    requires forall k :: 0 <= k < |list| ==> list[k].tagId.None?
    ensures forall id :: id in now ==> now[id].tagId.None? || (id in was && now[id] == was[id])
  {
    forall id | id in now && id !in was ensures now[id].tagId.None? {
      assert now[id] == NumberedSchedule(list[id - first], id);
    }
  }

  lemma OldNamesStay<T>(was: map<Id, T>, now: map<Id, T>, first: Id, list: seq<T>, numbered: (T, Id) -> T,
                        nameOf: T -> string, ok: nat -> bool)
    requires EnteredNames(was, now, first, list, numbered, nameOf, ok)
    ensures forall id :: id in was ==> id in now && now[id] == was[id]
  {
  }

  lemma TagsExistAfterAdding(was: Rows, now: Rows)
    requires TagsExist(was)
    requires forall id :: id in now.schedules ==>
      now.schedules[id].tagId.None? || (id in was.schedules && now.schedules[id] == was.schedules[id])
    requires forall id :: id in was.tags ==> id in now.tags
    ensures TagsExist(now)
  {
    forall id | id in now.schedules ensures TagExists(now.schedules[id], now.tags) {
      if id in was.schedules { assert TagExists(was.schedules[id], was.tags); }
    }
  }

  lemma TagsExistAfterImport(syntax: CronSyntax, r: Request, was: Rows, now: Rows)
    requires r.ImportFile? && ImportDid(syntax, r, was, now) && TagsExist(was)
    ensures TagsExist(now)
  {
    hide EnteredNames, Entered, TagsExist, YamlConfig.FileSchedules, YamlConfig.FileTags, YamlConfig.FileStacks,
      YamlConfig.TagsPass, YamlConfig.SchedulesPass, YamlConfig.StacksPass;
    if now.schedules != was.schedules || now.tags != was.tags {
      var cfg := r.cfg;
      YamlConfig.FileSchedulesUntagged(cfg);
      UntaggedGoIn(was.schedules, now.schedules, was.nextId, YamlConfig.FileSchedules(cfg), r.scheduleOk);
      OldNamesStay(was.tags, now.tags, was.nextId + |cfg.schedules|, YamlConfig.FileTags(cfg), NumberedTag, TagName, r.tagOk);
    }
    TagsExistAfterAdding(was, now);
  }

  /** However a tag edit or any statement fails: no request but a direct create takes a schedule's tag away from it. */
  lemma {:induction false} TagsExistInRun(syntax: CronSyntax, urlParses: string -> bool, requests: seq<Request>,
                                          history: seq<Moment>, n: nat)
    requires |history| == |requests| + 1 && n <= |requests| && TagsExist(history[0].rows)
    requires forall k :: 0 <= k < |requests| ==> Stepped(syntax, urlParses, requests[k], history[k], history[k + 1])
    requires forall k :: 0 <= k < |requests| ==> NamesTag(requests[k], history[k].rows.tags)
    ensures TagsExist(history[n].rows)
  {
    hide ScheduleRequestDid, TagRequestDid, StackRequestDid, ImportDid, RegistryDid, SettlesAt, View.Lag, NamesTag;
    if n > 0 {
      var r, was, now := requests[n - 1], history[n - 1].rows, history[n].rows;
      TagsExistInRun(syntax, urlParses, requests, history, n - 1);
      assert Stepped(syntax, urlParses, r, history[n - 1], history[n]);
      if r.CreateSchedule? || r.UpdateSchedule? || r.DeleteSchedule? || r.ToggleSchedule? {
        TagsExistAfterScheduleRequest(syntax, urlParses, r, was, now);
      } else if r.ImportFile? {
        TagsExistAfterImport(syntax, r, was, now);
      } else if r.CreateStack? || r.UpdateStack? || r.DeleteStack? || r.ToggleStack? {
        TagsExistAfterStackRequest(syntax, r, was, now);
      } else {
        TagsExistAfterTagRequest(syntax, r, was, now);
      }
    }
  }

  lemma TagsExistAfterStackRequest(syntax: CronSyntax, r: Request, was: Rows, now: Rows)
    requires r.CreateStack? || r.UpdateStack? || r.DeleteStack? || r.ToggleStack?
    requires StackRequestDid(syntax, r, was, now) && TagsExist(was)
    ensures TagsExist(now)
  {
  }

  // ---------- Expressions in a run ----------

  predicate BothParse(syntax: CronSyntax, startCron: string, stopCron: string) {
    (startCron == "" || syntax.parses(startCron)) && (stopCron == "" || syntax.parses(stopCron))
  }

  /** Every stored expression is empty or parses. */
  ghost predicate CronsParse(syntax: CronSyntax, rows: Rows) {
    && (forall id :: id in rows.schedules ==> BothParse(syntax, rows.schedules[id].startCron, rows.schedules[id].stopCron))
    && (forall id :: id in rows.tags ==> BothParse(syntax, rows.tags[id].startCron, rows.tags[id].stopCron))
    && (forall id :: id in rows.stacks ==> BothParse(syntax, rows.stacks[id].startCron, rows.stacks[id].stopCron))
  }

  lemma CronsParseAfterScheduleRequest(syntax: CronSyntax, urlParses: string -> bool, r: Request, was: Rows, now: Rows)
    requires r.CreateSchedule? || r.UpdateSchedule? || r.DeleteSchedule? || r.ToggleSchedule?
    requires ScheduleRequestDid(syntax, urlParses, r, was, now) && CronsParse(syntax, was)
    ensures CronsParse(syntax, now)
  {
    hide PairTaken, KeepsTagCron;
  }

  lemma CronsParseAfterTagRequest(syntax: CronSyntax, r: Request, was: Rows, now: Rows)
    requires r.CreateTag? || r.UpdateTag? || r.DeleteTag? || r.ToggleTag? || r.ApplyTag? || r.RemoveTagFromContainer?
    requires TagRequestDid(syntax, r, was, now) && CronsParse(syntax, was)
    ensures CronsParse(syntax, now)
  {
    hide TagNameTaken, AskedFor, HasRow, Text.TrimSpace, EditedTag, TagEditTaken, Applied, Rewritten, Untagged, CarryExpressions;
    if r.UpdateTag? && TagEditTaken(syntax, was.tags, r.id, r.tag, r.dbOk) {
      EditParses(syntax, was.tags, r.id, r.tag, r.dbOk);
      CarriedParse(syntax, was.schedules, now.schedules, r.id, now.tags[r.id], r.listed, r.rowOk);
    } else if r.ToggleTag? {
      var enabled := r.id in was.tags && !was.tags[r.id].enabled;
      ToggledParse(syntax, was.schedules, r.id, r.listed, r.rowOk, enabled);
    } else if r.DeleteTag? {
      UntaggedParse(syntax, was.schedules, r.id);
    } else if r.ApplyTag? && r.id in was.tags {
      AppliedParse(syntax, was.schedules, now.schedules, was.tags[r.id], r.id, r.containers);
    }
  }

  lemma EditParses(syntax: CronSyntax, tags: map<Id, Tag>, t: Id, req: Tag, dbOk: bool)
    requires TagEditTaken(syntax, tags, t, req, dbOk)
    ensures t in tags && syntax.parses(if req.startCron == "" then tags[t].startCron else req.startCron)
    ensures syntax.parses(if req.stopCron == "" then tags[t].stopCron else req.stopCron)
  {
  }

  lemma CarriedParse(syntax: CronSyntax, was: map<Id, Schedule>, now: map<Id, Schedule>, t: Id, tag: Tag,
                     listed: Id -> bool, rowOk: Id -> bool)
    requires BothParse(syntax, tag.startCron, tag.stopCron)
    requires forall id :: id in was ==> BothParse(syntax, was[id].startCron, was[id].stopCron)
    ensures CarryExpressions(was, now, t, tag.startCron, tag.stopCron, listed, rowOk) ==>
      forall id :: id in now ==> BothParse(syntax, now[id].startCron, now[id].stopCron)
  {
  }

  lemma ToggledParse(syntax: CronSyntax, was: map<Id, Schedule>, t: Id, listed: Id -> bool, rowOk: Id -> bool, enabled: bool)
    requires forall id :: id in was ==> BothParse(syntax, was[id].startCron, was[id].stopCron)
    ensures var now := Rewritten(was, t, listed, rowOk, (s: Schedule) => s.(enabled := enabled));
      forall id :: id in now ==> BothParse(syntax, now[id].startCron, now[id].stopCron)
  {
    hide BothParse;
  }

  lemma UntaggedParse(syntax: CronSyntax, was: map<Id, Schedule>, t: Id)
    requires forall id :: id in was ==> BothParse(syntax, was[id].startCron, was[id].stopCron)
    ensures var now := Untagged(was, t); forall id :: id in now ==> BothParse(syntax, now[id].startCron, now[id].stopCron)
  {
    hide BothParse;
  }

  lemma AppliedParse(syntax: CronSyntax, was: map<Id, Schedule>, now: map<Id, Schedule>, tag: Tag, t: Id, containers: seq<string>)
    requires BothParse(syntax, tag.startCron, tag.stopCron)
    requires forall id :: id in was ==> BothParse(syntax, was[id].startCron, was[id].stopCron)
    ensures (exists created :: Applied(was, now, tag, t, containers, created)) ==>
      forall id :: id in now ==> BothParse(syntax, now[id].startCron, now[id].stopCron)
  {
    hide BothParse;
  }

  lemma CronsParseAfterStackRequest(syntax: CronSyntax, r: Request, was: Rows, now: Rows)
    requires r.CreateStack? || r.UpdateStack? || r.DeleteStack? || r.ToggleStack?
    requires StackRequestDid(syntax, r, was, now) && CronsParse(syntax, was)
    ensures CronsParse(syntax, now)
  {
    hide StackNameTaken, Text.TrimSpace;
  }

  /** What holds of all old rows and of all of a list holds of the rows after the list went in. */
  lemma AllStill<T>(was: map<Id, T>, now: map<Id, T>, first: Id, list: seq<T>, numbered: (T, Id) -> T, good: T -> bool)
    requires Extended(was, now, first, list, numbered)
    requires (forall id :: id in was ==> good(was[id])) && forall k, id: Id :: 0 <= k < |list| ==> good(numbered(list[k], id))
    ensures forall id :: id in now ==> good(now[id])
  {
    forall id | id in now && id !in was ensures good(now[id]) {
      assert now[id] == numbered(list[id - first], id);
    }
  }

  lemma FileParses(syntax: CronSyntax, cfg: YamlConfig.Config)
    requires YamlConfig.TagsPass(syntax.parses, cfg) && YamlConfig.SchedulesPass(syntax.parses, cfg)
    requires YamlConfig.StacksPass(syntax.parses, cfg)
    ensures forall k :: 0 <= k < |cfg.schedules| ==>
      BothParse(syntax, YamlConfig.FileSchedules(cfg)[k].startCron, YamlConfig.FileSchedules(cfg)[k].stopCron)
    ensures forall k :: 0 <= k < |cfg.tags| ==>
      BothParse(syntax, YamlConfig.FileTags(cfg)[k].startCron, YamlConfig.FileTags(cfg)[k].stopCron)
    ensures forall k :: 0 <= k < |cfg.stacks| ==>
      BothParse(syntax, YamlConfig.FileStacks(cfg)[k].startCron, YamlConfig.FileStacks(cfg)[k].stopCron)
  {
  }

  lemma SchedulesStillParse(syntax: CronSyntax, was: map<Id, Schedule>, now: map<Id, Schedule>, first: Id,
                            list: seq<Schedule>, enters: nat -> bool)
    requires Entered(was, now, first, list, NumberedSchedule, enters, |list|)
    requires forall id :: id in was ==> BothParse(syntax, was[id].startCron, was[id].stopCron)
    requires forall k :: 0 <= k < |list| ==> BothParse(syntax, list[k].startCron, list[k].stopCron)
    ensures forall id :: id in now ==> BothParse(syntax, now[id].startCron, now[id].stopCron)
  {
    hide BothParse, WentIn;
    AllStill(was, now, first, list, NumberedSchedule, (s: Schedule) => BothParse(syntax, s.startCron, s.stopCron));
  }

  lemma TagsStillParse(syntax: CronSyntax, was: map<Id, Tag>, now: map<Id, Tag>, first: Id, list: seq<Tag>, ok: nat -> bool)
    requires EnteredNames(was, now, first, list, NumberedTag, TagName, ok)
    requires forall id :: id in was ==> BothParse(syntax, was[id].startCron, was[id].stopCron)
    requires forall k :: 0 <= k < |list| ==> BothParse(syntax, list[k].startCron, list[k].stopCron)
    ensures forall id :: id in now ==> BothParse(syntax, now[id].startCron, now[id].stopCron)
  {
    hide BothParse, WentIn, NewNames, NamesKnown;
    AllStill(was, now, first, list, NumberedTag, (tag: Tag) => BothParse(syntax, tag.startCron, tag.stopCron));
  }

  lemma StacksStillParse(syntax: CronSyntax, was: map<Id, Stack>, now: map<Id, Stack>, first: Id, list: seq<Stack>,
                         ok: nat -> bool)
    requires EnteredNames(was, now, first, list, NumberedStack, StackName, ok)
    requires forall id :: id in was ==> BothParse(syntax, was[id].startCron, was[id].stopCron)
    requires forall k :: 0 <= k < |list| ==> BothParse(syntax, list[k].startCron, list[k].stopCron)
    ensures forall id :: id in now ==> BothParse(syntax, now[id].startCron, now[id].stopCron)
  {
    hide BothParse, WentIn, NewNames, NamesKnown;
    AllStill(was, now, first, list, NumberedStack, (st: Stack) => BothParse(syntax, st.startCron, st.stopCron));
  }

  lemma CronsParseAfterImport(syntax: CronSyntax, r: Request, was: Rows, now: Rows)
    requires r.ImportFile? && ImportDid(syntax, r, was, now) && CronsParse(syntax, was)
    ensures CronsParse(syntax, now)
  {
    hide Entered, EnteredNames, YamlConfig.FileSchedules, YamlConfig.FileTags, YamlConfig.FileStacks,
      YamlConfig.TagsPass, YamlConfig.SchedulesPass, YamlConfig.StacksPass, BothParse;
    var cfg := r.cfg;
    if YamlConfig.TagsPass(syntax.parses, cfg) && YamlConfig.SchedulesPass(syntax.parses, cfg)
       && YamlConfig.StacksPass(syntax.parses, cfg) {
      FileParses(syntax, cfg);
      var firstTag := was.nextId + |cfg.schedules|;
      SchedulesStillParse(syntax, was.schedules, now.schedules, was.nextId, YamlConfig.FileSchedules(cfg), r.scheduleOk);
      TagsStillParse(syntax, was.tags, now.tags, firstTag, YamlConfig.FileTags(cfg), r.tagOk);
      StacksStillParse(syntax, was.stacks, now.stacks, firstTag + |cfg.tags|, YamlConfig.FileStacks(cfg), r.stackOk);
    }
  }

  /** Handlers and import let in no expression that does not parse, and a tag's expressions reach its schedules only with it. */
  lemma {:induction false} CronsParseInRun(syntax: CronSyntax, urlParses: string -> bool, requests: seq<Request>,
                                           history: seq<Moment>, n: nat)
    requires |history| == |requests| + 1 && n <= |requests| && CronsParse(syntax, history[0].rows)
    requires forall k :: 0 <= k < |requests| ==> Stepped(syntax, urlParses, requests[k], history[k], history[k + 1])
    ensures CronsParse(syntax, history[n].rows)
  {
    hide ScheduleRequestDid, TagRequestDid, StackRequestDid, ImportDid, RegistryDid, SettlesAt, View.Lag, CronsParse;
    if n > 0 {
      var r, was, now := requests[n - 1], history[n - 1].rows, history[n].rows;
      CronsParseInRun(syntax, urlParses, requests, history, n - 1);
      assert Stepped(syntax, urlParses, r, history[n - 1], history[n]);
      if r.CreateSchedule? || r.UpdateSchedule? || r.DeleteSchedule? || r.ToggleSchedule? {
        CronsParseAfterScheduleRequest(syntax, urlParses, r, was, now);
      } else if r.ImportFile? {
        CronsParseAfterImport(syntax, r, was, now);
      } else if r.CreateStack? || r.UpdateStack? || r.DeleteStack? || r.ToggleStack? {
        CronsParseAfterStackRequest(syntax, r, was, now);
      } else {
        CronsParseAfterTagRequest(syntax, r, was, now);
      }
    }
  }

  /**
    What the service is for: with a runner that takes what the validation takes, at
    every moment of a run every enabled stored schedule starts its container at its
    start expression and stops it at its stop expression, and every enabled stored
    stack is started and stopped likewise, but for the rows the registry lags behind on.
    */
  lemma EnabledRowsFire(syntax: CronSyntax, urlParses: string -> bool, requests: seq<Request>,
                        history: seq<Moment>, n: nat, id: Id)
    requires |history| == |requests| + 1 && n <= |requests| && CronsParse(syntax, history[0].rows)
    requires forall k :: 0 <= k < |requests| ==> Stepped(syntax, urlParses, requests[k], history[k], history[k + 1])
    requires FiresAsStored(history[n]) && StoredRowsFire(syntax, history[n])
    requires forall spec :: syntax.parses(spec) ==> syntax.accepts(spec)
    requires id !in history[n].Seen().Lag(syntax)
    ensures var now := history[n];
      id in now.rows.schedules && now.rows.schedules[id].enabled ==> var s := now.rows.schedules[id];
      && (Live(now.entries, CronEntry(s.startCron, StartContainer(id, s.container))) <==> s.startCron != "")
      && (Live(now.entries, CronEntry(s.stopCron, StopContainer(id, s.container))) <==> s.stopCron != "")
    ensures var now := history[n];
      id in now.rows.stacks && now.rows.stacks[id].enabled ==> var st := now.rows.stacks[id];
      && (Live(now.entries, CronEntry(st.startCron, FireStack(id, st.name, true))) <==> st.startCron != "")
      && (Live(now.entries, CronEntry(st.stopCron, FireStack(id, st.name, false))) <==> st.stopCron != "")
  {
    CronsParseInRun(syntax, urlParses, requests, history, n);
    hide Stepped, View.Lag;
    if id in history[n].rows.schedules {
      assert ScheduleFires(syntax, history[n].entries, id, history[n].rows.schedules[id]);
    }
    if id in history[n].rows.stacks {
      assert StackFires(syntax, history[n].entries, id, history[n].rows.stacks[id]);
    }
  }

  // ---------- Runs that fall behind ----------

  /** A server over an empty store, with every expression and URL accepted. */
  method FreshServer() returns (server: Server)
    ensures fresh(server) && fresh(server.store) && fresh(server.sched) && server.Ready()
    ensures server.store.schedules == map[] && server.store.tags == map[] && server.store.stacks == map[]
    ensures server.sched.syntax == CronSyntax(_ => true, _ => true)
  {
    hide Consistent, TableOf, Demand;
    var store := new Store();
    var sched := Boot(store, CronSyntax(_ => true, _ => true));
    server := new Server(store, sched, _ => true);
  }

  /** A stack whose deletion the database refuses stays stored and enabled, but no longer fires. */
  method RefusedStackDeletion() returns (server: Server)
    ensures server.store.Valid() && server.sched.Valid() && !server.Ready()
    ensures exists id :: id in server.store.stacks && server.store.stacks[id].enabled && id !in server.sched.Table()
  {
    hide Consistent, TableOf, Demand, Text.TrimSpace;
    server := FreshServer();
    var id := server.store.nextId;
    Text.AlreadyTrimmed("web");
    server.ReadyWithoutLag();
    ghost var was := server.Present();
    var status := server.CreateStack(Stack(0, "web", "", "0 8 * * *", "", true, false, "", "", 0, 0), true);
    server.StaysReady(was, Fresh(was.nextId, server.store.nextId));
    DemandAt(server.sched.syntax, server.store.schedules, server.store.stacks, id);
    status := server.DeleteStack(id, false);
    assert server.store.stacks[id].enabled;
  }

  /** The row is stored, enabled and of the tag, and fires exactly when `fires` says so. */
  ghost predicate Tagged(server: Server, t: Id, id: Id, fires: bool)
    requires server.sched.Valid()
    reads server.store, server.sched
  {
    && id in server.store.schedules && server.store.schedules[id].tagId == Some(t) && server.store.schedules[id].enabled
    && (id in server.sched.Table() <==> fires)
  }

  /** A tag with two enabled schedules, both registered. */
  method TaggedServer() returns (server: Server, t: Id, a: Id, b: Id)
    ensures fresh(server) && fresh(server.store) && fresh(server.sched) && server.Ready()
    ensures a != b && Tagged(server, t, a, true) && Tagged(server, t, b, true)
    ensures server.store.schedules.Keys == {a, b}
  {
    hide Consistent, TableOf, Demand, Text.TrimSpace, Server.CaughtUp, Server.Sound, Reached, Tracks, Fresh, View.Lag;
    server := FreshServer();
    t := server.store.nextId;
    Text.AlreadyTrimmed("day");
    server.ReadyWithoutLag();
    ghost var was := server.Present();
    var status := server.CreateTag(Tag(0, "day", "0 8 * * *", "0 18 * * *", true), true);
    server.StaysReady(was, Fresh(was.nextId, server.store.nextId));
    NoRows(server.store.schedules, t);
    ghost var rowA, rowB;
    a, rowA := TagOne(server, t, "web");
    b, rowB := TagOne(server, t, "api");
    Fires(server, a);
    Fires(server, b);
  }

  /** A stored schedule that wants registrations has them. */
  lemma Fires(server: Server, id: Id)
    requires server.Ready() && id in server.store.schedules
    requires ScheduleEntries(server.sched.syntax, server.store.schedules[id]) != []
    ensures server.sched.Valid() && id in server.sched.Table()
  {
    DemandAt(server.sched.syntax, server.store.schedules, server.store.stacks, id);
    hide Demand;
  }

  lemma NoRows(schedules: map<Id, Schedule>, t: Id)
    requires schedules == map[]
    ensures forall c :: !HasRow(schedules, t, c)
  {
  }

  /** Applies the tag to one container that does not have it. */
  method TagOne(server: Server, t: Id, container: string) returns (id: Id, ghost row: Schedule)
    requires server.Ready() && t in server.store.tags && !HasRow(server.store.schedules, t, container)
    requires server.sched.syntax == CronSyntax(_ => true, _ => true)
    requires server.store.tags[t].enabled && server.store.tags[t].startCron != ""
    modifies server.store, server.sched
    ensures server.Ready() && server.store.tags == old(server.store.tags)
    ensures id !in old(server.store.schedules)
    ensures server.store.schedules == old(server.store.schedules)[id := row]
    ensures row.tagId == Some(t) && row.enabled && row.container == container
    ensures ScheduleEntries(server.sched.syntax, row) != []
  {
    hide Server.Ready, Server.Sound, Server.CaughtUp, HasRow;
    server.ReadyNow();
    server.ReadyWithoutLag();
    server.AtRest();
    ghost var was := server.Present();
    var made, existed := server.ApplyOne(t, server.store.tags[t], container, true, true, was);
    server.StaysReady(was, Fresh(was.nextId, server.store.nextId));
    id, row := made.value.id, made.value;
  }

  /** A tag whose deletion the database refuses keeps its enabled schedules, and none of them fires. */
  method RefusedTagDeletion() returns (server: Server, t: Id, a: Id, b: Id)
    ensures server.store.Valid() && server.sched.Valid() && !server.Ready()
    ensures a != b && Tagged(server, t, a, false) && Tagged(server, t, b, false)
  {
    hide Server.Ready, Consistent, TableOf, Demand;
    server, t, a, b := TaggedServer();
    server.ReadyNow();
    server.ReadyWithoutLag();
    var status := server.DeleteTag(t, _ => true, false, true);
  }

  /** The client goes away after the first row is read: both queries fail, and one of the two schedules no longer fires. */
  method InterruptedTagDeletion() returns (server: Server, t: Id, a: Id, b: Id)
    ensures server.store.Valid() && server.sched.Valid() && !server.Ready()
    ensures a != b && Tagged(server, t, a, false) && Tagged(server, t, b, true)
  {
    hide Server.Ready, Consistent, TableOf, Demand;
    server, t, a, b := TaggedServer();
    server.ReadyNow();
    server.ReadyWithoutLag();
    var status := server.DeleteTag(t, id => id == a, false, false);
  }

  /** The listing fails and the deletion succeeds: the schedules are gone, and go on firing. */
  method MissedTagDeletion() returns (server: Server, a: Id, b: Id)
    ensures server.store.Valid() && server.sched.Valid() && !server.Ready()
    ensures a != b && server.store.schedules == map[] && a in server.sched.Table() && b in server.sched.Table()
  {
    hide Server.Ready, Server.Sound, Store.Valid, Scheduler.Valid, ListedRows, Untagged, View.Lag, DeletionLags;
    var t: Id;
    server, t, a, b := TaggedServer();
    server.ReadyNow();
    server.ReadyWithoutLag();
    ghost var was, table := server.store.schedules, server.sched.Table();
    NoneListed(was, table, t);
    AllUntagged(was, t);
    var status := server.DeleteTag(t, _ => false, true, true);
    server.SoundNow();
  }

  lemma NoneListed(schedules: map<Id, Schedule>, table: Registrations, t: Id)
    ensures table - ListedRows(schedules, t, _ => false) == table
  {
    assert ListedRows(schedules, t, _ => false) == {};
  }

  lemma AllUntagged(schedules: map<Id, Schedule>, t: Id)
    requires forall id :: id in schedules ==> schedules[id].tagId == Some(t)
    ensures Untagged(schedules, t) == map[]
  {
  }
}
