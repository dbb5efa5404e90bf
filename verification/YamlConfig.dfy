/**
  Export of the stored rows to a `Config` value and its re-import
  (internal/yamlconfig/config.go).  The YAML text encoding is left out: both
  directions are modelled at the level of the `Config` structure.
  */
module YamlConfig {
  import opened Wrappers
  import opened Models

  datatype ScheduleEntry = ScheduleEntry(
    container: string, displayName: string, stackName: string, startCron: string, stopCron: string, enabled: bool)

  datatype TagEntry = TagEntry(
    name: string, startCron: string, stopCron: string, enabled: bool, containers: seq<string>)

  datatype StackEntry = StackEntry(
    name: string, displayName: string, startCron: string, stopCron: string, enabled: bool, onDemand: bool,
    onDemandUrl: string, primaryContainer: string, idleTimeoutSec: int, startupDelaySec: int)

  datatype Config = Config(schedules: seq<ScheduleEntry>, tags: seq<TagEntry>, stacks: seq<StackEntry>)

  // ---------- Export ----------

  function EntryOf(s: Schedule): ScheduleEntry {
    ScheduleEntry(s.container, s.displayName, s.stackName, s.startCron, s.stopCron, s.enabled)
  }

  function StackEntryOf(st: Stack): StackEntry {
    StackEntry(st.name, st.displayName, st.startCron, st.stopCron, st.enabled, st.onDemand, st.onDemandUrl,
               st.primaryContainer, st.idleTimeoutSec, st.startupDelaySec)
  }

  /** The untagged schedules, in order. */
  function Direct(schedules: seq<Schedule>): seq<Schedule> {
    if schedules == [] then []
    else
      var rest, last := schedules[..|schedules| - 1], schedules[|schedules| - 1];
      Direct(rest) + if last.tagId.None? then [last] else []
  }

  /** The schedules derived from tag `t`, in order. */
  function Under(schedules: seq<Schedule>, t: Id): seq<Schedule> {
    if schedules == [] then []
    else
      var rest, last := schedules[..|schedules| - 1], schedules[|schedules| - 1];
      Under(rest, t) + if last.tagId == Some(t) then [last] else []
  }

  function Containers(schedules: seq<Schedule>): seq<string> {
    seq(|schedules|, k requires 0 <= k < |schedules| => schedules[k].container)
  }

  /** A tag's entry names the containers of its schedules, in order. */
  function TagEntryOf(schedules: seq<Schedule>, tag: Tag): TagEntry {
    TagEntry(tag.name, tag.startCron, tag.stopCron, tag.enabled, Containers(Under(schedules, tag.id)))
  }

  /** What the exported value must look like: each list is the model's, entry by entry and in order. */
  ghost predicate Exports(cfg: Config, schedules: seq<Schedule>, tags: seq<Tag>, stacks: seq<Stack>) {
    && |cfg.schedules| == |Direct(schedules)|
    && (forall k :: 0 <= k < |cfg.schedules| ==> cfg.schedules[k] == EntryOf(Direct(schedules)[k]))
    && |cfg.tags| == |tags|
    && (forall k :: 0 <= k < |tags| ==> cfg.tags[k] == TagEntryOf(schedules, tags[k]))
    && |cfg.stacks| == |stacks|
    && (forall k :: 0 <= k < |stacks| ==> cfg.stacks[k] == StackEntryOf(stacks[k]))
  }

  lemma DirectSnoc(schedules: seq<Schedule>, i: nat)
    requires i < |schedules|
    ensures Direct(schedules[..i + 1]) == Direct(schedules[..i]) + if schedules[i].tagId.None? then [schedules[i]] else []
  {
    assert schedules[..i + 1][..i] == schedules[..i];
  }

  lemma UnderSnoc(schedules: seq<Schedule>, i: nat, t: Id)
    requires i < |schedules|
    ensures Under(schedules[..i + 1], t)
         == Under(schedules[..i], t) + if schedules[i].tagId == Some(t) then [schedules[i]] else []
  {
    assert schedules[..i + 1][..i] == schedules[..i];
  }

  /** The untagged schedules, and those of a tag, are taken from the list in its order, each once. */
  lemma {:induction false} TakenInOrder(a: seq<Schedule>, b: seq<Schedule>, t: Id)
    ensures Direct(a + b) == Direct(a) + Direct(b) && Under(a + b, t) == Under(a, t) + Under(b, t)
  {
    if b == [] {
      assert a + b == a;
    } else {
      var n := |b| - 1;
      assert (a + b)[..|a| + n] == a + b[..n];
      TakenInOrder(a, b[..n], t);
      hide Direct, Under;
      TakenLast(a + b, t);
      TakenLast(b, t);
    }
  }

  lemma TakenLast(schedules: seq<Schedule>, t: Id)
    requires schedules != []
    ensures var rest, last := schedules[..|schedules| - 1], schedules[|schedules| - 1];
      && Direct(schedules) == Direct(rest) + (if last.tagId.None? then [last] else [])
      && Under(schedules, t) == Under(rest, t) + (if last.tagId == Some(t) then [last] else [])
  {
  }

  /** Every exported entry has its row's fields, each under its own name. */
  lemma ExportedFields(cfg: Config, schedules: seq<Schedule>, tags: seq<Tag>, stacks: seq<Stack>)
    requires Exports(cfg, schedules, tags, stacks)
    ensures |cfg.schedules| == |Direct(schedules)| && |cfg.tags| == |tags| && |cfg.stacks| == |stacks|
    ensures forall k :: 0 <= k < |cfg.schedules| ==> var e, s := cfg.schedules[k], Direct(schedules)[k];
      && e.container == s.container && e.displayName == s.displayName && e.stackName == s.stackName
      && e.startCron == s.startCron && e.stopCron == s.stopCron && e.enabled == s.enabled
    ensures forall k :: 0 <= k < |cfg.tags| ==> var e, t := cfg.tags[k], tags[k];
      && e.name == t.name && e.startCron == t.startCron && e.stopCron == t.stopCron && e.enabled == t.enabled
      && |e.containers| == |Under(schedules, t.id)|
      && forall i :: 0 <= i < |e.containers| ==> e.containers[i] == Under(schedules, t.id)[i].container
    ensures forall k :: 0 <= k < |cfg.stacks| ==> var e, st := cfg.stacks[k], stacks[k];
      && e.name == st.name && e.displayName == st.displayName && e.startCron == st.startCron && e.stopCron == st.stopCron
      && e.enabled == st.enabled && e.onDemand == st.onDemand && e.onDemandUrl == st.onDemandUrl
      && e.primaryContainer == st.primaryContainer && e.idleTimeoutSec == st.idleTimeoutSec
      && e.startupDelaySec == st.startupDelaySec
  {
    hide Direct, Under;
  }

  /** What the first loop's map holds after `i` schedules. */
  ghost predicate Filed(tagSchedules: map<Id, seq<Schedule>>, done: seq<Schedule>) {
    && (forall t :: t in tagSchedules ==> tagSchedules[t] == Under(done, t))
    && (forall t :: t !in tagSchedules ==> Under(done, t) == [])
  }

  lemma FiledStep(schedules: seq<Schedule>, i: nat, was: map<Id, seq<Schedule>>, now: map<Id, seq<Schedule>>)
    requires i < |schedules| && Filed(was, schedules[..i])
    requires schedules[i].tagId.None? ==> now == was
    requires schedules[i].tagId.Some? ==>
      var t := schedules[i].tagId.value; now == was[t := (if t in was then was[t] else []) + [schedules[i]]]
    ensures Filed(now, schedules[..i + 1])
  {
    hide Under;
    forall t ensures if t in now then now[t] == Under(schedules[..i + 1], t) else Under(schedules[..i + 1], t) == [] {
      UnderSnoc(schedules, i, t);
    }
  }

  method FromSchedulesTagsAndStacks(schedules: seq<Schedule>, tags: seq<Tag>, stacks: seq<Stack>) returns (cfg: Config)
    ensures Exports(cfg, schedules, tags, stacks)
  {
    hide Under, Direct, Filed;
    var direct: seq<ScheduleEntry> := [];
    var tagSchedules: map<Id, seq<Schedule>> := map[];
    NothingFiled();
    for i := 0 to |schedules|
      invariant |direct| == |Direct(schedules[..i])|
      invariant forall k :: 0 <= k < |direct| ==> direct[k] == EntryOf(Direct(schedules[..i])[k])
      invariant Filed(tagSchedules, schedules[..i])
    {
      var s := schedules[i];
      ghost var was := tagSchedules;
      DirectSnoc(schedules, i);
      if s.tagId.Some? {
        var t := s.tagId.value;
        tagSchedules := tagSchedules[t := (if t in tagSchedules then tagSchedules[t] else []) + [s]];
      } else {
        direct := direct + [EntryOf(s)];
      }
      FiledStep(schedules, i, was, tagSchedules);
    }
    assert schedules[..|schedules|] == schedules;

    var tagEntries: seq<TagEntry> := [];
    for i := 0 to |tags|
      invariant |tagEntries| == i
      invariant forall k :: 0 <= k < i ==> tagEntries[k] == TagEntryOf(schedules, tags[k])
    {
      var members := if tags[i].id in tagSchedules then tagSchedules[tags[i].id] else [];
      FiledAt(tagSchedules, schedules, tags[i].id);
      var containers: seq<string> := [];
      for k := 0 to |members|
        invariant containers == Containers(members[..k])
      {
        containers := containers + [members[k].container];
      }
      assert members[..|members|] == members;
      tagEntries := tagEntries + [TagEntry(tags[i].name, tags[i].startCron, tags[i].stopCron, tags[i].enabled, containers)];
    }

    var stackEntries: seq<StackEntry> := [];
    for i := 0 to |stacks|
      invariant |stackEntries| == i
      invariant forall k :: 0 <= k < i ==> stackEntries[k] == StackEntryOf(stacks[k])
    {
      stackEntries := stackEntries + [StackEntryOf(stacks[i])];
    }
    cfg := Config(direct, tagEntries, stackEntries);
  }

  lemma NothingFiled()
    ensures Filed(map[], []) && Direct([]) == []
  {
  }

  lemma FiledAt(tagSchedules: map<Id, seq<Schedule>>, done: seq<Schedule>, t: Id)
    requires Filed(tagSchedules, done)
    ensures (if t in tagSchedules then tagSchedules[t] else []) == Under(done, t)
  {
  }

  /** How many tag entries carry the id `t`. */
  function TagsWithId(tags: seq<Tag>, t: Id): nat {
    if tags == [] then 0
    else TagsWithId(tags[..|tags| - 1], t) + if tags[|tags| - 1].id == t then 1 else 0
  }

  /** In how many places the export mentions a schedule. */
  function Places(s: Schedule, tags: seq<Tag>): nat {
    if s.tagId.None? then 1 else TagsWithId(tags, s.tagId.value)
  }

  function Copies<T>(x: T, n: nat): multiset<T> { multiset{}[x := n] }

  /** The images of the schedules under `f`, in order: their containers, or the schedules themselves. */
  function Images<T>(schedules: seq<Schedule>, f: Schedule -> T): seq<T> {
    seq(|schedules|, k requires 0 <= k < |schedules| => f(schedules[k]))
  }

  function ContainerOf(s: Schedule): string { s.container }

  function Itself(s: Schedule): Schedule { s }

  /** Every schedule's image, once for each place the schedule is mentioned in. */
  function Mentions<T>(schedules: seq<Schedule>, tags: seq<Tag>, f: Schedule -> T): multiset<T> {
    if schedules == [] then multiset{}
    else
      var rest, last := schedules[..|schedules| - 1], schedules[|schedules| - 1];
      Mentions(rest, tags, f) + Copies(f(last), Places(last, tags))
  }

  function TagMentions(entries: seq<TagEntry>): multiset<string> {
    if entries == [] then multiset{}
    else TagMentions(entries[..|entries| - 1]) + multiset(entries[|entries| - 1].containers)
  }

  function EntryContainers(entries: seq<ScheduleEntry>): seq<string> {
    seq(|entries|, k requires 0 <= k < |entries| => entries[k].container)
  }

  /** All container names an exported value mentions. */
  function Exported(cfg: Config): multiset<string> {
    multiset(EntryContainers(cfg.schedules)) + TagMentions(cfg.tags)
  }

  /** What the tags' groups of an export of `schedules` hold. */
  function Grouped<T>(schedules: seq<Schedule>, tags: seq<Tag>, f: Schedule -> T): multiset<T> {
    if tags == [] then multiset{}
    else Grouped(schedules, tags[..|tags| - 1], f) + multiset(Images(Under(schedules, tags[|tags| - 1].id), f))
  }

  lemma UnderStep<T>(rest: seq<Schedule>, last: Schedule, t: Id, f: Schedule -> T)
    ensures multiset(Images(Under(rest + [last], t), f))
         == multiset(Images(Under(rest, t), f)) + if last.tagId == Some(t) then multiset{f(last)} else multiset{}
  {
    assert (rest + [last])[..|rest|] == rest;
    var more := if last.tagId == Some(t) then [last] else [];
    assert Under(rest + [last], t) == Under(rest, t) + more;
    assert Images(Under(rest, t) + more, f) == Images(Under(rest, t), f) + Images(more, f);
    assert more == [last] ==> Images(more, f) == [f(last)];
  }

  lemma {:induction false} GroupedStep<T>(rest: seq<Schedule>, last: Schedule, tags: seq<Tag>, f: Schedule -> T)
    ensures Grouped(rest + [last], tags, f)
         == Grouped(rest, tags, f) + Copies(f(last), if last.tagId.None? then 0 else Places(last, tags))
  {
    if tags != [] {
      GroupedStep(rest, last, tags[..|tags| - 1], f);
      UnderStep(rest, last, tags[|tags| - 1].id, f);
      hide Under, Images;
    }
  }

  lemma DirectStep<T>(rest: seq<Schedule>, last: Schedule, f: Schedule -> T)
    ensures multiset(Images(Direct(rest + [last]), f))
         == multiset(Images(Direct(rest), f)) + Copies(f(last), if last.tagId.None? then 1 else 0)
  {
    assert (rest + [last])[..|rest|] == rest;
    var more := if last.tagId.None? then [last] else [];
    assert Direct(rest + [last]) == Direct(rest) + more;
    assert Images(Direct(rest) + more, f) == Images(Direct(rest), f) + Images(more, f);
    assert more == [last] ==> Images(more, f) == [f(last)];
  }

  lemma {:induction false} MentionsSplit<T>(schedules: seq<Schedule>, tags: seq<Tag>, f: Schedule -> T)
    ensures Mentions(schedules, tags, f) == multiset(Images(Direct(schedules), f)) + Grouped(schedules, tags, f)
  {
    if schedules == [] {
      NothingGrouped(tags, f);
    } else {
      var rest, last := schedules[..|schedules| - 1], schedules[|schedules| - 1];
      assert schedules == rest + [last];
      MentionsSplit(rest, tags, f);
      GroupedStep(rest, last, tags, f);
      DirectStep(rest, last, f);
      hide Direct, Grouped, Images;
    }
  }

  lemma {:induction false} NothingGrouped<T>(tags: seq<Tag>, f: Schedule -> T)
    ensures Grouped([], tags, f) == multiset{}
  {
    if tags != [] { NothingGrouped(tags[..|tags| - 1], f); }
  }

  lemma KnownImages(schedules: seq<Schedule>)
    ensures Images(schedules, ContainerOf) == Containers(schedules) && Images(schedules, Itself) == schedules
  {
    assert Images(schedules, ContainerOf) == Containers(schedules);
    assert Images(schedules, Itself) == schedules;
  }

  lemma DirectContainers(entries: seq<ScheduleEntry>, schedules: seq<Schedule>)
    requires |entries| == |schedules| && forall k :: 0 <= k < |entries| ==> entries[k] == EntryOf(schedules[k])
    ensures EntryContainers(entries) == Images(schedules, ContainerOf)
  {
    assert EntryContainers(entries) == Images(schedules, ContainerOf);
  }

  lemma {:induction false} TagMentionsAreGrouped(entries: seq<TagEntry>, schedules: seq<Schedule>, tags: seq<Tag>)
    requires |entries| == |tags|
    requires forall k :: 0 <= k < |tags| ==> entries[k].containers == Containers(Under(schedules, tags[k].id))
    ensures TagMentions(entries) == Grouped(schedules, tags, ContainerOf)
  {
    if tags != [] {
      var n := |tags| - 1;
      TagMentionsAreGrouped(entries[..n], schedules, tags[..n]);
      assert entries[n].containers == Images(Under(schedules, tags[n].id), ContainerOf);
    }
  }

  /**
    Export accounts for every schedule: each container is mentioned exactly as
    often as its schedules have places, one for an untagged schedule and one per
    listed tag with its id for a tag-derived one.
    */
  lemma ExportAccountsForEverySchedule(cfg: Config, schedules: seq<Schedule>, tags: seq<Tag>, stacks: seq<Stack>)
    requires Exports(cfg, schedules, tags, stacks)
    ensures Exported(cfg) == Mentions(schedules, tags, ContainerOf)
    ensures multiset(Direct(schedules)) + Grouped(schedules, tags, Itself) == Mentions(schedules, tags, Itself)
  {
    hide Direct, Under, Images, Containers, EntryContainers, Mentions, Grouped, TagMentions;
    DirectContainers(cfg.schedules, Direct(schedules));
    TagMentionsAreGrouped(cfg.tags, schedules, tags);
    MentionsSplit(schedules, tags, ContainerOf);
    MentionsSplit(schedules, tags, Itself);
    KnownImages(Direct(schedules));
  }

  predicate DistinctIds(tags: seq<Tag>) {
    forall j, k :: 0 <= j < k < |tags| ==> tags[j].id != tags[k].id
  }

  predicate Covers(tags: seq<Tag>, schedules: seq<Schedule>) {
    forall s :: s in schedules && s.tagId.Some? ==> exists k :: 0 <= k < |tags| && tags[k].id == s.tagId.value
  }

  lemma {:induction false} ListedOnce(tags: seq<Tag>, t: Id)
    requires DistinctIds(tags)
    ensures TagsWithId(tags, t) == if exists k :: 0 <= k < |tags| && tags[k].id == t then 1 else 0
  {
    if tags != [] {
      ListedOnce(tags[..|tags| - 1], t);
      if tags[|tags| - 1].id != t && exists k :: 0 <= k < |tags| && tags[k].id == t {
        var k :| 0 <= k < |tags| && tags[k].id == t;
        assert tags[..|tags| - 1][k].id == t;
      }
    }
  }

  lemma OnePlace(s: Schedule, schedules: seq<Schedule>, tags: seq<Tag>)
    requires DistinctIds(tags) && Covers(tags, schedules) && s in schedules
    ensures Places(s, tags) == 1
  {
    if s.tagId.Some? { ListedOnce(tags, s.tagId.value); }
  }

  lemma {:induction false} MentionedOnce<T>(schedules: seq<Schedule>, tags: seq<Tag>, f: Schedule -> T)
    requires forall s :: s in schedules ==> Places(s, tags) == 1
    ensures Mentions(schedules, tags, f) == multiset(Images(schedules, f))
  {
    if schedules != [] {
      var rest, last := schedules[..|schedules| - 1], schedules[|schedules| - 1];
      MentionedOnce(rest, tags, f);
      assert Images(schedules, f) == Images(rest, f) + [f(last)];
      assert last in schedules;
      hide Images, Places;
    }
  }

  /**
    With distinct tags that cover all references, the untagged schedules and the tags'
    groups are the schedules, each exactly once: no schedule is lost, doubled or
    exchanged for another of the same container.
    */
  lemma ExportIsExhaustive(cfg: Config, schedules: seq<Schedule>, tags: seq<Tag>, stacks: seq<Stack>)
    requires Exports(cfg, schedules, tags, stacks) && DistinctIds(tags) && Covers(tags, schedules)
    ensures Exported(cfg) == multiset(Containers(schedules))
    ensures multiset(Direct(schedules)) + Grouped(schedules, tags, Itself) == multiset(schedules)
  {
    ExportAccountsForEverySchedule(cfg, schedules, tags, stacks);
    forall s | s in schedules ensures Places(s, tags) == 1 {
      OnePlace(s, schedules, tags);
    }
    hide Direct, Under, Images, Containers, Mentions, Grouped, Exported, Exports, Places;
    MentionedOnce(schedules, tags, ContainerOf);
    MentionedOnce(schedules, tags, Itself);
    KnownImages(schedules);
  }

  // ---------- Import ----------

  datatype Fault = NameRequired | StartRequired | StopRequired | StartInvalid | StopInvalid

  datatype Rejection =
    | BadTag(index: nat, fault: Fault)
    | BadSchedule(index: nat, fault: Fault)
    | BadStack(index: nat, fault: Fault)

  datatype Imported =
    | Accepted(schedules: seq<Schedule>, tags: seq<Tag>, stacks: seq<Stack>)
    | Rejected(why: Rejection)

  /** The check shared by tag and schedule entries: a name and two expressions, all present, both parsing. */
  function Check(parses: string -> bool, name: string, startCron: string, stopCron: string): Option<Fault> {
    if name == "" then Some(NameRequired)
    else if startCron == "" then Some(StartRequired)
    else if stopCron == "" then Some(StopRequired)
    else if !parses(startCron) then Some(StartInvalid)
    else if !parses(stopCron) then Some(StopInvalid)
    else None
  }

  function CheckStack(parses: string -> bool, name: string, startCron: string, stopCron: string): Option<Fault> {
    if name == "" then Some(NameRequired)
    else if startCron != "" && !parses(startCron) then Some(StartInvalid)
    else if stopCron != "" && !parses(stopCron) then Some(StopInvalid)
    else None
  }

  function TagFault(parses: string -> bool, e: TagEntry): Option<Fault> { Check(parses, e.name, e.startCron, e.stopCron) }
  function ScheduleFault(parses: string -> bool, e: ScheduleEntry): Option<Fault> {
    Check(parses, e.container, e.startCron, e.stopCron)
  }
  function StackFault(parses: string -> bool, e: StackEntry): Option<Fault> {
    CheckStack(parses, e.name, e.startCron, e.stopCron)
  }

  function TagFrom(e: TagEntry): Tag { Tag(0, e.name, e.startCron, e.stopCron, e.enabled) }

  function ScheduleFrom(e: ScheduleEntry): Schedule {
    Schedule(0, e.container, if e.displayName == "" then e.container else e.displayName, e.stackName,
             e.startCron, e.stopCron, e.enabled, false, "", 0, 0, None)
  }

  function StackFrom(e: StackEntry): Stack {
    Stack(0, e.name, e.displayName, e.startCron, e.stopCron, e.enabled, e.onDemand, e.onDemandUrl,
          e.primaryContainer, e.idleTimeoutSec, e.startupDelaySec)
  }

  /** The rows an accepted file stands for, in order. */
  function FileSchedules(cfg: Config): (rows: seq<Schedule>)
    ensures |rows| == |cfg.schedules|
  {
    seq(|cfg.schedules|, k requires 0 <= k < |cfg.schedules| => ScheduleFrom(cfg.schedules[k]))
  }

  /** Every row of a file has its entry's fields, each under its own name; a missing display name is the container's. */
  lemma FileFields(cfg: Config)
    ensures forall k :: 0 <= k < |cfg.schedules| ==> var e, s := cfg.schedules[k], FileSchedules(cfg)[k];
      && s.container == e.container && s.displayName == (if e.displayName == "" then e.container else e.displayName)
      && s.stackName == e.stackName && s.startCron == e.startCron && s.stopCron == e.stopCron && s.enabled == e.enabled
      && !s.onDemand && s.tagId.None?
    ensures forall k :: 0 <= k < |cfg.tags| ==> var e, t := cfg.tags[k], FileTags(cfg)[k];
      && t.name == e.name && t.startCron == e.startCron && t.stopCron == e.stopCron && t.enabled == e.enabled
    ensures forall k :: 0 <= k < |cfg.stacks| ==> var e, st := cfg.stacks[k], FileStacks(cfg)[k];
      && st.name == e.name && st.displayName == e.displayName && st.startCron == e.startCron && st.stopCron == e.stopCron
      && st.enabled == e.enabled && st.onDemand == e.onDemand && st.onDemandUrl == e.onDemandUrl
      && st.primaryContainer == e.primaryContainer && st.idleTimeoutSec == e.idleTimeoutSec
      && st.startupDelaySec == e.startupDelaySec
  {
  }

  lemma FileSchedulesUntagged(cfg: Config)
    ensures forall k :: 0 <= k < |cfg.schedules| ==> FileSchedules(cfg)[k].tagId.None?
  {
  }

  function FileTags(cfg: Config): (rows: seq<Tag>)
    ensures |rows| == |cfg.tags|
  {
    seq(|cfg.tags|, k requires 0 <= k < |cfg.tags| => TagFrom(cfg.tags[k]))
  }

  function FileStacks(cfg: Config): (rows: seq<Stack>)
    ensures |rows| == |cfg.stacks|
  {
    seq(|cfg.stacks|, k requires 0 <= k < |cfg.stacks| => StackFrom(cfg.stacks[k]))
  }

  predicate TagsPass(parses: string -> bool, cfg: Config) {
    forall k :: 0 <= k < |cfg.tags| ==> TagFault(parses, cfg.tags[k]).None?
  }

  predicate SchedulesPass(parses: string -> bool, cfg: Config) {
    forall k :: 0 <= k < |cfg.schedules| ==> ScheduleFault(parses, cfg.schedules[k]).None?
  }

  predicate StacksPass(parses: string -> bool, cfg: Config) {
    forall k :: 0 <= k < |cfg.stacks| ==> StackFault(parses, cfg.stacks[k]).None?
  }

  /** The import's result: everything converted in order, or the first faulty entry (tags, schedules, stacks). */
  ghost predicate Imports(parses: string -> bool, cfg: Config, r: Imported) {
    match r
    case Accepted(schedules, tags, stacks) =>
      && TagsPass(parses, cfg) && SchedulesPass(parses, cfg) && StacksPass(parses, cfg)
      && schedules == FileSchedules(cfg) && tags == FileTags(cfg) && stacks == FileStacks(cfg)
    case Rejected(BadTag(i, fault)) =>
      && i < |cfg.tags| && TagFault(parses, cfg.tags[i]) == Some(fault)
      && (forall k :: 0 <= k < i ==> TagFault(parses, cfg.tags[k]).None?)
    case Rejected(BadSchedule(i, fault)) =>
      && TagsPass(parses, cfg)
      && i < |cfg.schedules| && ScheduleFault(parses, cfg.schedules[i]) == Some(fault)
      && (forall k :: 0 <= k < i ==> ScheduleFault(parses, cfg.schedules[k]).None?)
    case Rejected(BadStack(i, fault)) =>
      && TagsPass(parses, cfg) && SchedulesPass(parses, cfg)
      && i < |cfg.stacks| && StackFault(parses, cfg.stacks[i]) == Some(fault)
      && (forall k :: 0 <= k < i ==> StackFault(parses, cfg.stacks[k]).None?)
  }

  method ToSchedulesTagsAndStacks(parses: string -> bool, cfg: Config) returns (r: Imported)
    ensures Imports(parses, cfg, r)
  {
    var tags: seq<Tag> := [];
    for i := 0 to |cfg.tags|
      invariant |tags| == i
      invariant forall k :: 0 <= k < i ==> TagFault(parses, cfg.tags[k]).None? && tags[k] == TagFrom(cfg.tags[k])
    {
      var entry := cfg.tags[i];
      if entry.name == "" { return Rejected(BadTag(i, NameRequired)); }
      if entry.startCron == "" { return Rejected(BadTag(i, StartRequired)); }
      if entry.stopCron == "" { return Rejected(BadTag(i, StopRequired)); }
      if !parses(entry.startCron) { return Rejected(BadTag(i, StartInvalid)); }
      if !parses(entry.stopCron) { return Rejected(BadTag(i, StopInvalid)); }
      tags := tags + [TagFrom(entry)];
    }

    var schedules: seq<Schedule> := [];
    for i := 0 to |cfg.schedules|
      invariant |schedules| == i
      invariant forall k :: 0 <= k < i ==>
        ScheduleFault(parses, cfg.schedules[k]).None? && schedules[k] == ScheduleFrom(cfg.schedules[k])
    {
      var entry := cfg.schedules[i];
      if entry.container == "" { return Rejected(BadSchedule(i, NameRequired)); }
      if entry.startCron == "" { return Rejected(BadSchedule(i, StartRequired)); }
      if entry.stopCron == "" { return Rejected(BadSchedule(i, StopRequired)); }
      if !parses(entry.startCron) { return Rejected(BadSchedule(i, StartInvalid)); }
      if !parses(entry.stopCron) { return Rejected(BadSchedule(i, StopInvalid)); }
      var displayName := entry.displayName;
      if displayName == "" { displayName := entry.container; }
      schedules := schedules + [Schedule(0, entry.container, displayName, entry.stackName, entry.startCron,
                                         entry.stopCron, entry.enabled, false, "", 0, 0, None)];
    }

    var stacks: seq<Stack> := [];
    for i := 0 to |cfg.stacks|
      invariant |stacks| == i
      invariant forall k :: 0 <= k < i ==> StackFault(parses, cfg.stacks[k]).None? && stacks[k] == StackFrom(cfg.stacks[k])
    {
      var entry := cfg.stacks[i];
      if entry.name == "" { return Rejected(BadStack(i, NameRequired)); }
      if entry.startCron != "" && !parses(entry.startCron) { return Rejected(BadStack(i, StartInvalid)); }
      if entry.stopCron != "" && !parses(entry.stopCron) { return Rejected(BadStack(i, StopInvalid)); }
      stacks := stacks + [StackFrom(entry)];
    }
    r := Accepted(schedules, tags, stacks);
  }

  // ---------- Round trip ----------

  predicate Complete(parses: string -> bool, name: string, startCron: string, stopCron: string) {
    name != "" && startCron != "" && stopCron != "" && parses(startCron) && parses(stopCron)
  }

  predicate CompleteStack(parses: string -> bool, st: Stack) {
    st.name != "" && (st.startCron == "" || parses(st.startCron)) && (st.stopCron == "" || parses(st.stopCron))
  }

  /** The rows that re-importing an export accepts. */
  ghost predicate Importable(parses: string -> bool, schedules: seq<Schedule>, tags: seq<Tag>, stacks: seq<Stack>) {
    && (forall s :: s in Direct(schedules) ==> Complete(parses, s.container, s.startCron, s.stopCron))
    && (forall t :: t in tags ==> Complete(parses, t.name, t.startCron, t.stopCron))
    && (forall st :: st in stacks ==> CompleteStack(parses, st))
  }

  predicate SameExportedSchedule(s: Schedule, back: Schedule) {
    && back.container == s.container
    && back.displayName == (if s.displayName == "" then s.container else s.displayName)
    && back.stackName == s.stackName && back.startCron == s.startCron && back.stopCron == s.stopCron
    && back.enabled == s.enabled && back.tagId == None
  }

  lemma SchedulesComeBack(parses: string -> bool, cfg: Config, direct: seq<Schedule>)
    requires |cfg.schedules| == |direct| && forall k :: 0 <= k < |direct| ==> cfg.schedules[k] == EntryOf(direct[k])
    ensures SchedulesPass(parses, cfg) <==> forall s :: s in direct ==> Complete(parses, s.container, s.startCron, s.stopCron)
    ensures forall k :: 0 <= k < |direct| ==> SameExportedSchedule(direct[k], FileSchedules(cfg)[k])
  {
    forall k | 0 <= k < |direct|
      ensures ScheduleFault(parses, cfg.schedules[k]).None? <==>
              Complete(parses, direct[k].container, direct[k].startCron, direct[k].stopCron)
    {
    }
    hide ScheduleFault, Complete;
    if SchedulesPass(parses, cfg) {
      forall s | s in direct ensures Complete(parses, s.container, s.startCron, s.stopCron) {
        var k :| 0 <= k < |direct| && direct[k] == s;
      }
    }
  }

  lemma TagsComeBack(parses: string -> bool, cfg: Config, schedules: seq<Schedule>, tags: seq<Tag>)
    requires |cfg.tags| == |tags| && forall k :: 0 <= k < |tags| ==> cfg.tags[k] == TagEntryOf(schedules, tags[k])
    ensures TagsPass(parses, cfg) <==> forall t :: t in tags ==> Complete(parses, t.name, t.startCron, t.stopCron)
    ensures forall k :: 0 <= k < |tags| ==> FileTags(cfg)[k] == tags[k].(id := 0)
  {
    forall k | 0 <= k < |tags|
      ensures TagFault(parses, cfg.tags[k]).None? <==> Complete(parses, tags[k].name, tags[k].startCron, tags[k].stopCron)
    {
    }
    hide TagFault, Complete, TagEntryOf;
    if TagsPass(parses, cfg) {
      forall t | t in tags ensures Complete(parses, t.name, t.startCron, t.stopCron) {
        var k :| 0 <= k < |tags| && tags[k] == t;
      }
    }
  }

  lemma StacksComeBack(parses: string -> bool, cfg: Config, stacks: seq<Stack>)
    requires |cfg.stacks| == |stacks| && forall k :: 0 <= k < |stacks| ==> cfg.stacks[k] == StackEntryOf(stacks[k])
    ensures StacksPass(parses, cfg) <==> forall st :: st in stacks ==> CompleteStack(parses, st)
    ensures forall k :: 0 <= k < |stacks| ==> FileStacks(cfg)[k] == stacks[k].(id := 0)
  {
    forall k | 0 <= k < |stacks| ensures StackFault(parses, cfg.stacks[k]).None? <==> CompleteStack(parses, stacks[k]) {
    }
    hide StackFault, CompleteStack;
    if StacksPass(parses, cfg) {
      forall st | st in stacks ensures CompleteStack(parses, st) {
        var k :| 0 <= k < |stacks| && stacks[k] == st;
      }
    }
  }

  /** The import accepts exactly the files whose entries all pass. */
  lemma AcceptedWhenAllPass(parses: string -> bool, cfg: Config, r: Imported)
    requires Imports(parses, cfg, r)
    ensures r.Accepted? <==> TagsPass(parses, cfg) && SchedulesPass(parses, cfg) && StacksPass(parses, cfg)
    ensures r.Accepted? ==> r.schedules == FileSchedules(cfg) && r.tags == FileTags(cfg) && r.stacks == FileStacks(cfg)
    ensures r.Accepted? <==>
      && (forall e :: e in cfg.tags ==>
            e.name != "" && e.startCron != "" && e.stopCron != "" && parses(e.startCron) && parses(e.stopCron))
      && (forall e :: e in cfg.schedules ==>
            e.container != "" && e.startCron != "" && e.stopCron != "" && parses(e.startCron) && parses(e.stopCron))
      && (forall e :: e in cfg.stacks ==>
            e.name != "" && (e.startCron == "" || parses(e.startCron)) && (e.stopCron == "" || parses(e.stopCron)))
  {
  }

  /**
    Re-importing what was exported succeeds exactly when every untagged schedule,
    tag and stack passes its checks, and then returns the same untagged schedules,
    tags and stacks, in order, on all exported fields.
    */
  lemma RoundTrip(parses: string -> bool, schedules: seq<Schedule>, tags: seq<Tag>, stacks: seq<Stack>,
                  cfg: Config, back: Imported)
    requires Exports(cfg, schedules, tags, stacks) && Imports(parses, cfg, back)
    ensures back.Accepted? <==> Importable(parses, schedules, tags, stacks)
    ensures back.Accepted? ==>
      && |back.schedules| == |Direct(schedules)|
      && (forall k :: 0 <= k < |back.schedules| ==> SameExportedSchedule(Direct(schedules)[k], back.schedules[k]))
      && |back.tags| == |tags|
      && (forall k :: 0 <= k < |tags| ==> back.tags[k] == tags[k].(id := 0))
      && |back.stacks| == |stacks|
      && (forall k :: 0 <= k < |stacks| ==> back.stacks[k] == stacks[k].(id := 0))
  {
    AcceptedWhenAllPass(parses, cfg, back);
    hide Imports, TagsPass, SchedulesPass, StacksPass, Complete, SameExportedSchedule;
    hide FileSchedules, FileTags, FileStacks, TagEntryOf, EntryOf, StackEntryOf, Direct;
    SchedulesComeBack(parses, cfg, Direct(schedules));
    TagsComeBack(parses, cfg, schedules, tags);
    StacksComeBack(parses, cfg, stacks);
  }
}
