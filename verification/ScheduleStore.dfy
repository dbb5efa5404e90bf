/**
  The schedule, tag and stack tables (internal/store/store.go) with the
  constraints SQLite enforces: primary keys, unique tag and stack names, and the
  partial unique index on (tag_id, container_name).  Each statement takes a flag
  saying whether the database carries it out; a refused statement changes nothing.
  */
module ScheduleStore {
  import opened Wrappers
  import opened Models

  /** The unique index: another row of the same tag already holds the container. */
  predicate PairTaken(schedules: map<Id, Schedule>, row: Schedule) {
    row.tagId.Some? &&
    exists id :: id in schedules && id != row.id && schedules[id].tagId == row.tagId && schedules[id].container == row.container
  }

  predicate TagNameTaken(tags: map<Id, Tag>, row: Tag) {
    exists id :: id in tags && id != row.id && tags[id].name == row.name
  }

  predicate StackNameTaken(stacks: map<Id, Stack>, row: Stack) {
    exists id :: id in stacks && id != row.id && stacks[id].name == row.name
  }

  ghost predicate UniquePairs(schedules: map<Id, Schedule>) {
    forall i, j :: i in schedules && j in schedules && i != j
      && schedules[i].tagId.Some? && schedules[i].tagId == schedules[j].tagId
      ==> schedules[i].container != schedules[j].container
  }

  ghost predicate UniqueTagNames(tags: map<Id, Tag>) {
    forall i, j :: i in tags && j in tags && i != j ==> tags[i].name != tags[j].name
  }

  ghost predicate UniqueStackNames(stacks: map<Id, Stack>) {
    forall i, j :: i in stacks && j in stacks && i != j ==> stacks[i].name != stacks[j].name
  }

  /**
    `rows` lists, once each and in order of creation, the rows of `schedules` whose
    tag is `t` and which the query got to: a query that fails on the way may hand
    back what it has read so far beside its error.
    */
  ghost predicate Lists(rows: seq<Schedule>, schedules: map<Id, Schedule>, t: Id, listed: Id -> bool) {
    && (forall k :: 0 <= k < |rows| ==>
          rows[k].id in schedules && schedules[rows[k].id] == rows[k] && rows[k].tagId == Some(t) && listed(rows[k].id))
    && (forall j, k :: 0 <= j < k < |rows| ==> rows[j].id < rows[k].id)
    && (forall id :: id in schedules && schedules[id].tagId == Some(t) && listed(id) ==>
          schedules[id].id == id && schedules[id] in rows)
  }

  class Store {
    var schedules: map<Id, Schedule>
    var tags: map<Id, Tag>
    var stacks: map<Id, Stack>
    var nextId: Id

    ghost predicate Valid()
      reads this
    {
      && (forall id :: id in schedules ==> schedules[id].id == id && id < nextId && id !in stacks)
      && (forall id :: id in tags ==> tags[id].id == id && id < nextId)
      && (forall id :: id in stacks ==> stacks[id].id == id && id < nextId && id !in schedules)
      && UniquePairs(schedules) && UniqueTagNames(tags) && UniqueStackNames(stacks)
    }

    constructor ()
      ensures Valid() && schedules == map[] && tags == map[] && stacks == map[]
    {
      schedules, tags, stacks, nextId := map[], map[], map[], 0;
    }

    method CreateSchedule(req: Schedule, dbOk: bool) returns (created: Option<Schedule>)
      requires Valid()
      modifies this`schedules, this`nextId
      ensures Valid() && nextId == old(nextId) + 1
      ensures created.Some? <==> dbOk && !PairTaken(old(schedules), req.(id := old(nextId)))
      ensures created.Some? <==> dbOk && forall id :: id in old(schedules) && req.tagId.Some? ==>
        old(schedules)[id].tagId != req.tagId || old(schedules)[id].container != req.container
      ensures created.None? ==> schedules == old(schedules)
      ensures created.Some? ==> created.value == req.(id := old(nextId))
      ensures created.Some? ==> schedules == old(schedules)[old(nextId) := created.value]
    {
      var row := req.(id := nextId);
      nextId := nextId + 1;
      if !dbOk || PairTaken(schedules, row) { return None; }
      schedules := schedules[row.id := row];
      created := Some(row);
    }

    method UpdateSchedule(row: Schedule, dbOk: bool) returns (ok: bool)
      requires Valid()
      modifies this`schedules
      ensures Valid()
      ensures ok <==> dbOk && (row.id !in old(schedules) || !PairTaken(old(schedules), row))
      ensures row.id in old(schedules) ==>
        (ok <==> dbOk && forall id :: id in old(schedules) && id != row.id && row.tagId.Some? ==>
           old(schedules)[id].tagId != row.tagId || old(schedules)[id].container != row.container)
      ensures schedules == if ok && row.id in old(schedules) then old(schedules)[row.id := row] else old(schedules)
    {
      if row.id !in schedules { return dbOk; }
      if !dbOk || PairTaken(schedules, row) { return false; }
      schedules := schedules[row.id := row];
      ok := true;
    }

    method DeleteSchedule(id: Id, dbOk: bool) returns (ok: bool)
      requires Valid()
      modifies this`schedules
      ensures Valid() && ok == dbOk
      ensures schedules == if ok then old(schedules) - {id} else old(schedules)
    {
      if dbOk { schedules := schedules - {id}; }
      ok := dbOk;
    }

    /** `listed` says which rows the query gets to before it ends or fails. */
    method ListSchedulesByTag(t: Id, listed: Id -> bool) returns (rows: seq<Schedule>)
      requires Valid()
      ensures Lists(rows, schedules, t, listed)
    {
      rows := [];
      for id := 0 to nextId
        invariant forall k :: 0 <= k < |rows| ==>
          rows[k].id in schedules && schedules[rows[k].id] == rows[k] && rows[k].tagId == Some(t)
          && listed(rows[k].id) && rows[k].id < id
        invariant forall j, k :: 0 <= j < k < |rows| ==> rows[j].id < rows[k].id
        invariant forall i :: i in schedules && i < id && schedules[i].tagId == Some(t) && listed(i) ==> schedules[i] in rows
      {
        if id in schedules && schedules[id].tagId == Some(t) && listed(id) { rows := rows + [schedules[id]]; }
      }
    }

    /** All rows, in order of creation. */
    method ListSchedules() returns (rows: seq<Schedule>)
      requires Valid()
      ensures forall k :: 0 <= k < |rows| ==> rows[k].id in schedules && schedules[rows[k].id] == rows[k]
      ensures forall j, k :: 0 <= j < k < |rows| ==> rows[j].id < rows[k].id
      ensures forall id :: id in schedules ==> schedules[id] in rows
    {
      rows := [];
      for id := 0 to nextId
        invariant forall k :: 0 <= k < |rows| ==>
          rows[k].id in schedules && schedules[rows[k].id] == rows[k] && rows[k].id < id
        invariant forall j, k :: 0 <= j < k < |rows| ==> rows[j].id < rows[k].id
        invariant forall i :: i in schedules && i < id ==> schedules[i] in rows
      {
        if id in schedules { rows := rows + [schedules[id]]; }
      }
    }

    method ListStacks() returns (rows: seq<Stack>)
      requires Valid()
      ensures forall k :: 0 <= k < |rows| ==> rows[k].id in stacks && stacks[rows[k].id] == rows[k]
      ensures forall j, k :: 0 <= j < k < |rows| ==> rows[j].id < rows[k].id
      ensures forall id :: id in stacks ==> stacks[id] in rows
    {
      rows := [];
      for id := 0 to nextId
        invariant forall k :: 0 <= k < |rows| ==>
          rows[k].id in stacks && stacks[rows[k].id] == rows[k] && rows[k].id < id
        invariant forall j, k :: 0 <= j < k < |rows| ==> rows[j].id < rows[k].id
        invariant forall i :: i in stacks && i < id ==> stacks[i] in rows
      {
        if id in stacks { rows := rows + [stacks[id]]; }
      }
    }

    method GetScheduleByTagAndContainer(t: Id, container: string) returns (row: Option<Schedule>)
      requires Valid()
      ensures row.Some? ==>
        && row.value.id in schedules && schedules[row.value.id] == row.value
        && row.value.tagId == Some(t) && row.value.container == container
      ensures row.None? ==>
        forall id :: id in schedules ==> !(schedules[id].tagId == Some(t) && schedules[id].container == container)
    {
      row := None;
      if exists id :: id in schedules && schedules[id].tagId == Some(t) && schedules[id].container == container {
        var id :| id in schedules && schedules[id].tagId == Some(t) && schedules[id].container == container;
        row := Some(schedules[id]);
      }
    }

    method CreateTag(req: Tag, dbOk: bool) returns (created: Option<Tag>)
      requires Valid()
      modifies this`tags, this`nextId
      ensures Valid() && nextId == old(nextId) + 1
      ensures created.Some? <==> dbOk && !TagNameTaken(old(tags), req.(id := old(nextId)))
      ensures created.Some? <==> dbOk && forall id :: id in old(tags) ==> old(tags)[id].name != req.name
      ensures created.None? ==> tags == old(tags)
      ensures created.Some? ==> created.value == req.(id := old(nextId))
      ensures created.Some? ==> tags == old(tags)[old(nextId) := created.value]
    {
      var row := req.(id := nextId);
      nextId := nextId + 1;
      if !dbOk || TagNameTaken(tags, row) { return None; }
      tags := tags[row.id := row];
      created := Some(row);
    }

    method UpdateTag(row: Tag, dbOk: bool) returns (ok: bool)
      requires Valid()
      modifies this`tags
      ensures Valid()
      ensures ok <==> dbOk && (row.id !in old(tags) || !TagNameTaken(old(tags), row))
      ensures row.id in old(tags) ==>
        (ok <==> dbOk && forall id :: id in old(tags) && id != row.id ==> old(tags)[id].name != row.name)
      ensures tags == if ok && row.id in old(tags) then old(tags)[row.id := row] else old(tags)
    {
      if row.id !in tags { return dbOk; }
      if !dbOk || TagNameTaken(tags, row) { return false; }
      tags := tags[row.id := row];
      ok := true;
    }

    /** One transaction: the tag's schedules go with the tag, or nothing goes. */
    method DeleteTag(t: Id, schedulesOk: bool, tagsOk: bool) returns (ok: bool)
      requires Valid()
      modifies this`schedules, this`tags
      ensures Valid() && ok == (schedulesOk && tagsOk)
      ensures schedules ==
        if ok then map id | id in old(schedules) && old(schedules)[id].tagId != Some(t) :: old(schedules)[id]
        else old(schedules)
      ensures tags == if ok then old(tags) - {t} else old(tags)
    {
      var savedSchedules, savedTags := schedules, tags;
      if !schedulesOk {
        schedules, tags := savedSchedules, savedTags;
        return false;
      }
      schedules := map id | id in schedules && schedules[id].tagId != Some(t) :: schedules[id];
      if !tagsOk {
        schedules, tags := savedSchedules, savedTags;
        return false;
      }
      tags := tags - {t};
      ok := true;
    }

    method CreateStack(req: Stack, dbOk: bool) returns (created: Option<Stack>)
      requires Valid()
      modifies this`stacks, this`nextId
      ensures Valid() && nextId == old(nextId) + 1
      ensures created.Some? <==> dbOk && !StackNameTaken(old(stacks), req.(id := old(nextId)))
      ensures created.Some? <==> dbOk && forall id :: id in old(stacks) ==> old(stacks)[id].name != req.name
      ensures created.None? ==> stacks == old(stacks)
      ensures created.Some? ==> created.value == req.(id := old(nextId))
      ensures created.Some? ==> stacks == old(stacks)[old(nextId) := created.value]
    {
      var row := req.(id := nextId);
      nextId := nextId + 1;
      if !dbOk || StackNameTaken(stacks, row) { return None; }
      stacks := stacks[row.id := row];
      created := Some(row);
    }

    method UpdateStack(row: Stack, dbOk: bool) returns (ok: bool)
      requires Valid()
      modifies this`stacks
      ensures Valid()
      ensures ok <==> dbOk && (row.id !in old(stacks) || !StackNameTaken(old(stacks), row))
      ensures row.id in old(stacks) ==>
        (ok <==> dbOk && forall id :: id in old(stacks) && id != row.id ==> old(stacks)[id].name != row.name)
      ensures stacks == if ok && row.id in old(stacks) then old(stacks)[row.id := row] else old(stacks)
    {
      if row.id !in stacks { return dbOk; }
      if !dbOk || StackNameTaken(stacks, row) { return false; }
      stacks := stacks[row.id := row];
      ok := true;
    }

    method DeleteStack(id: Id, dbOk: bool) returns (ok: bool)
      requires Valid()
      modifies this`stacks
      ensures Valid() && ok == dbOk
      ensures stacks == if ok then old(stacks) - {id} else old(stacks)
    {
      if dbOk { stacks := stacks - {id}; }
      ok := dbOk;
    }
  }
}
