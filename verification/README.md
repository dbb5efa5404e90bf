# schedule-containers: a verified model

schedule-containers starts, stops and restarts Docker containers by cron schedule, on demand and on log lines.
Several of its in-memory structures have to agree with a database or with a full history of events.  This project
models those structures, and the text transformations beside them, and proves what they promise.

`dafny verify dfyconfig.toml` checks everything.

| file | what it models |
|---|---|
| `Models.dfy`, `Wrappers.dfy` | the stored rows; the optional value |
| `Scheduler.dfy` | the cron registry: live entries beside the `jobs` table |
| `Registry.dfy` | what the stored rows demand of the registry, and how a registry may lag behind them |
| `ScheduleStore.dfy` | the schedule, tag and stack tables with their unique indexes |
| `Api.dfy` | the mutation handlers, the import handler and the boot sequence over both |
| `YamlConfig.dfy` | export and import of the configuration value |
| `LogRules.dfy`, `FireWindow.dfy`, `Watcher.dfy`, `RuleManager.dfy` | log rules, the sliding-window breaker, one watcher, the manager beside its table |
| `Accounts.dfy` | users, sessions, the link transaction, the requests that change accounts |
| `LockTable.dfy`, `WakeProtocol.dfy`, `FireProtocol.dfy` | the two per-container lock protocols as state machines |
| `Splitting.dfy`, `Text.dfy`, `LogLines.dfy`, `CronPhrase.dfy` | sequences cut at separators, the Go string functions used, the log-line splitter, the cron printer |

## The main results

- **Incremental equals rebuild.**  Boot from any store, serve any sequence of schedule, tag, stack and import
  requests one at a time with any database statement failing, and boot a second scheduler from the rows as they
  then stand (`Api.ServeAndCompare`).  At every moment no entry is without an owner or has two, what is registered
  for a stored row is exactly that row's entries, and whatever else is registered is for ids that are no longer stored.
  The two registries agree on all rows but those the live one lags behind on, and have the same jobs and the same
  live entries up to entry ids exactly when there are none.  Handlers that add without removing are safe because
  a disabled row owns nothing, and stay so in a registry that lags.
- **What fires.**  At every moment of every run an enabled stored schedule or stack starts at its start expression
  and stops at its stop expression, and nothing fires for a stored row otherwise, but for the rows the registry lags
  behind on (`Api.EnabledRowsFire`).  No expression that fails validation is ever stored (`Api.CronsParseInRun`).
- **Where the registry falls behind.**  Deleting a tag unregisters the schedules its listing got to, which may be
  some of them when the query fails on the way (`internal/store/store.go:278` hands back what it has beside the
  error, and the handler drops the error), and then deletes in one transaction.  The registry lags behind on a
  further row exactly when some registered schedule of the tag was listed but not deleted, or deleted but not listed
  (`Api.Server.DeleteTag`, row by row).  Deleting a stack has the like condition (`Api.Server.DeleteStack`).  No
  other request adds to the lag, and each takes out of it the rows it writes.  `Api.RefusedTagDeletion`,
  `Api.InterruptedTagDeletion` and `Api.RefusedStackDeletion` are runs in which stored, enabled rows no longer
  fire; in `Api.MissedTagDeletion` deleted schedules go on firing.
- **Tags.**  Tag-derived schedules keep their tag's expressions in every run without direct creates that carry a
  tag id and without tag edits that stop half-way through their schedules (`TagSafe`).  Both exceptions are exact:
  `Server.CreateSchedule` says when a create stays coherent, `TagUpdateCoherence` when an edit does, and
  `Server.ToggleTag` when a tag's schedules share its flag.  That the tag of a tag-derived schedule exists needs
  less: only a direct create naming an absent tag can break it (`Api.TagsExistInRun`).
- **The circuit breaker.**  The list of fire times pruned in place is the full history cut to ten minutes; hence
  the breaker trips exactly when the full history has six fires in them, a rule not yet reported fires at most
  five times in any ten minutes anywhere on the time line, and the breaker is unreachable exactly from a cooldown
  of two minutes up.  The cooldown is a 64-bit product of nanoseconds: it means its seconds exactly from one to
  9 223 372 036 of them (`LogRules.CooldownMeaning`).
- **The rule manager.**  Each event has one resulting state (`RuleManaging.Next`).  In every interleaving of handlers,
  breaker reports and matches from any watcher and delayed removals, each held rule is enabled in the store or has a
  removal pending, and each container's watcher runs exactly the held rules that compile.  Left alone, the
  cascade of removals ends, in every order and whatever the database does, with the same rules, all of which compile.
- **Accounts.**  The link transaction is all-or-nothing, keeps the unique index after every statement, conserves
  the bound subjects and ends the sessions of both accounts; one admin survives every sequence of requests, each of
  which has one resulting state (`Accounts.Next`).  Every session a run ends with was there at the start or
  was earned by a login of its user (`Accounts.SessionsAreEarned`).
- **Locks.**  Wakes of one container are serialised and their starts are paid for by stops; no two cron callbacks
  or stack fires act on one container at once; neither protocol can deadlock.  A stack fire reaches each of its
  containers, and a wake that meets no failure finds or leaves its container running.
- **Text.**  What the cron printer prints in place of a valid expression reads back as exactly the moments the
  expression denotes under the crontab utility, INPUT FILES, of IEEE Std 1003.1-2017.  The log-line splitter emits
  exactly the capped pieces of its stream.  Export puts each schedule in one place, re-import returns the untagged
  schedules, tags and stacks, and an import adds exactly the file's entries that go in, each once.

## How the code is read

- Identifiers are natural numbers handed out in order of creation, in place of UUIDs and of the creation times that
  listings are ordered by; update timestamps are left out.
- A request comes with its decoded body; a body that does not decode is answered before anything is read or
  written.  Each database statement comes with a flag saying whether it is carried out.
  A read that fails before the first write ends the request with an error and no change; it is left out, except
  where the program goes on regardless: the admin and user counts, the lookup when a tag is applied, and the listing
  of a tag's schedules, of which any part may have been read.
- Cron validity is two uninterpreted predicates, the check of `ValidateCronExpression` and the one inside the
  runner's `AddFunc`; regular expressions and matching are uninterpreted too.
- The reasons stored with a disabled rule are abbreviated.  The setup page's GET and the password hashing before a
  write change nothing and are left out.
- A failing count of users or admins is ignored by the program and counts as none; `SetsUp` and `Spared` state what
  follows.  A token that cannot be generated is a session that is not created.
- Requests are served one at a time, as the properties of the registry and of the accounts are stated.  The
  manager's events and the lock protocols interleave freely.
- `Scheduler.Register` is the body that `AddSchedule` and `AddStack` have in common.
- The boot loops take the address of the loop variable (`internal/cli/serve.go:62-68`); with the per-iteration
  variables of the module's Go version each closure has its own row, as modelled.
- A stack fire is given the containers to visit: listing them and picking the stack's by name is left out, and a failing
  start or stop is only logged.
- Fetching a container lock is one atomic step.  The wake path does so under a mutex; `fireStack` does not
  (`internal/scheduler/scheduler.go:258`), so for it this is an assumption.
- Whether SQLite enforces foreign keys, and so deletes a deleted user's sessions, is a parameter; the account
  results hold either way.
- A rule's breaker history is that of one watcher: every rebuild starts afresh (`docs/ARCHITECTURE.md:148`).
- `docs/ARCHITECTURE.md:150` says a link invalidates both users' sessions.  The code deletes the target's; the
  source's stop resolving because the source row is gone.  `LinkEndsBothSessions` proves the documented effect.
- An import drops the containers listed under tags: it creates the tags without their schedules
  (`internal/web/api.go:489-500`).
- With a specified month and weekday and any day of the month, the cron library intersects where POSIX takes the
  union.  The printer gives no phrase to an expression that names a month, so its promise is the same under both.

## Model

| member | source | states |
|---|---|---|
| Scheduling.RegisteringNeedsAFreeRow | internal/scheduler/scheduler.go:72-127 | writing a row's new entry ids keeps "every live entry has exactly one owner" if and only if the row owned nothing before |
| Scheduling.UnregisteringKeepsConsistent | internal/scheduler/scheduler.go:130-145 | removing a row's entries and job keeps the registry consistent and touches no other row |
| Scheduling.TableDeterminesEntries | internal/scheduler/scheduler.go:20-27 | two consistent registries with the same registrations per row are in bijection, entry by entry and owner by owner |
| Scheduling.RenamingIsABijection | internal/scheduler/scheduler.go:20-27 | matching job positions match every live entry of one registry with one of the other, keeping specification and action |
| Scheduling.AnyRenamingMeansSameTable | internal/scheduler/scheduler.go:20-27 | two consistent registries that match entry by entry in any way hold the same registrations per row |
| Scheduling.Scheduler.AddFunc | internal/scheduler/scheduler.go:78-91 | the runner's table grows by one entry under the next id, or is unchanged when the expression is refused |
| Scheduling.Scheduler.RemoveEntries | internal/scheduler/scheduler.go:95-99 | exactly the listed entries go |
| Scheduling.Scheduler.Register | internal/scheduler/scheduler.go:72-127 | all of the row's expressions are registered in order or, with either refused, entries and jobs are as before |
| Scheduling.Scheduler.AddSchedule | internal/scheduler/scheduler.go:57-128 | a failing add changes nothing; after a successful one of an enabled row a new entry starts its container at the start expression, if there is one, another stops it at the stop expression, if there is one, and no others are new; it leaks exactly when the row already owned some |
| Scheduling.Scheduler.RemoveSchedule | internal/scheduler/scheduler.go:130-145 | the row's registrations go and no others, also when there are none |
| Scheduling.Scheduler.AddStack | internal/scheduler/scheduler.go:170-221 | as for a schedule: the start expression comes to start the stack and the stop expression to stop it, and nothing else is new |
| Scheduling.GainedEntries | internal/scheduler/scheduler.go:72-127 | of the pair handed in exactly the entries with an expression become live, once each, and every old entry stays |
| Scheduling.LiveEntries | internal/scheduler/scheduler.go:20-27 | the live entries are exactly those of the table, each among its own row's |
| Scheduling.Scheduler.RemoveStack | internal/scheduler/scheduler.go:223-235 | the stack's registrations go and no others |
| Scheduling.Scheduler.UpdateStack | internal/scheduler/scheduler.go:237-240 | whatever was registered for the stack is replaced by what the new row is entitled to |
| ScheduleStore.Store.CreateSchedule | internal/store/store.go:186-204 | a new row under a fresh id, unless the (tag, container) index or the database refuses it |
| ScheduleStore.Store.UpdateSchedule | internal/store/store.go:232-246 | the row is rewritten unless the index refuses it; an absent row is no error |
| ScheduleStore.Store.DeleteSchedule | internal/store/store.go:248-251 | the row goes, or nothing changes |
| ScheduleStore.Store.ListSchedulesByTag | internal/store/store.go:262-279 | the tag's rows that the query got to, each once, in order of creation, and no others |
| ScheduleStore.Store.ListSchedules | internal/store/store.go:213-230 | all rows, each once, in order of creation |
| ScheduleStore.Store.ListStacks | internal/store/store.go:456-475 | all rows, each once, in order of creation |
| ScheduleStore.Store.GetScheduleByTagAndContainer | internal/store/store.go:295-300 | a row of that tag and container, and none exactly when there is none |
| ScheduleStore.Store.CreateTag | internal/store/store.go:334-349 | a new row under a fresh id unless its name is taken |
| ScheduleStore.Store.UpdateTag | internal/store/store.go:384-395 | the row is rewritten unless its name is taken; an absent row is no error |
| ScheduleStore.Store.DeleteTag | internal/store/store.go:397-411 | the tag and all its schedules go together, or nothing changes |
| ScheduleStore.Store.CreateStack | internal/store/store.go:424-440 | a new row under a fresh id unless its name is taken |
| ScheduleStore.Store.UpdateStack | internal/store/store.go:477-490 | the row is rewritten unless its name is taken; an absent row is no error |
| ScheduleStore.Store.DeleteStack | internal/store/store.go:492-495 | the row goes, or nothing changes |
| Registry.DemandChangesAt | internal/cli/serve.go:57-82 | writing one row changes what a boot would register for that row only |
| Registry.DemandWithout | internal/cli/serve.go:57-82 | deleting rows drops exactly their registrations from what a boot would register |
| Registry.LagAt | internal/cli/serve.go:57-82 | a registry that tracks the rows lags behind on a row exactly when it holds for it something else than a boot would register: nothing though the row demands entries, or something though the row is gone |
| Registry.EqualOffLag | internal/cli/serve.go:57-82 | a registry that tracks the rows is what a boot would register on all rows off its lag, and altogether if and only if it lags behind on none |
| Registry.LagAfterCatchingUp | internal/web/api.go:109-1187 | setting right the registrations of some rows and leaving the others keeps the registry tracking and takes exactly those rows out of its lag |
| Registry.CatchesUpTwice | internal/web/api.go:708-725 | one such change after another sets right the rows of both |
| Registry.RegisteredFit | internal/scheduler/scheduler.go:78-110 | in a registry that tracks the rows an entry of a stored schedule starts that row's container at its start expression or stops it at its stop expression, the row being enabled; of a stored stack likewise |
| Registry.StoredAreRegistered | internal/cli/serve.go:57-82 | an enabled stored row whose expressions are taken is registered for each of them unless the registry lags behind on it |
| Api.Server.ReadyWithoutLag | internal/cli/serve.go:57-82 | the registry equals a rebuild if and only if it tracks the rows and lags behind on none |
| Api.Server.InsertSchedule | internal/web/api.go:152-164 | exactly the accepted row goes in under the id drawn, and it is registered as a boot would, whatever the registry lags behind on |
| Api.Server.InsertStack | internal/web/api.go:1035-1050 | exactly the accepted row goes in under the id drawn, and it is registered as a boot would, whatever the registry lags behind on |
| Api.Server.InsertTag | internal/web/api.go:628-637 | exactly the accepted tag goes in under the id drawn, and no registration changes |
| Api.Server.CreateSchedule | internal/web/api.go:109-172 | in any state a run can reach, the ids drawn are registered as a boot would and nothing else moves; exactly the well-formed requests create the row; tags stay coherent exactly when the request's tag, if any, exists with the same expressions |
| Api.Server.UpdateSchedule | internal/web/api.go:174-252 | in any state a run can reach, the row written is registered as a boot would and nothing else moves; the tag link is kept, and a tag-derived schedule's expressions cannot be edited |
| Api.Server.DeleteSchedule | internal/web/api.go:254-275 | in any state a run can reach, row and registrations go together or stay together |
| Api.Server.ToggleSchedule | internal/web/api.go:277-333 | in any state a run can reach, only the enabled flag changes, and the row's registrations follow it |
| Api.Server.CreateTag | internal/web/api.go:604-642 | exactly the well-formed requests with a free trimmed name create a tag; no registration changes |
| Api.Server.RewriteTagRows | internal/web/api.go:708-725 | exactly the tag's rows that were listed and that the database accepts are rewritten, and exactly those are registered as a boot would |
| Api.Server.UpdateTag | internal/web/api.go:662-729 | the tag gets the name and flag asked for, and an expression left empty stays; the rows listed and taken get the tag's expressions, all others stay, and exactly the rows written are registered as a boot would; tags stay coherent if and only if the expressions are unchanged or every one of the tag's rows was listed and rewritten |
| Api.TagUpdateCoherence | internal/web/api.go:708-725 | after an edit of a tag its schedules agree with it if and only if nothing changed or all of them were rewritten |
| Api.Server.ToggleTag | internal/web/api.go:747-799 | exactly the rows rewritten are registered as a boot would; the tag's schedules share its flag if and only if each was listed and rewritten or had that flag already; expressions stay coherent |
| Api.ToggledTag | internal/web/api.go:755-777 | a toggle never disturbs tag coherence, and aligns the flags if and only if each row was rewritten or had the flag already |
| Api.Server.UnregisterTag | internal/web/api.go:734-737 | the registrations of exactly the tag's listed schedules go |
| Api.Server.DeleteTag | internal/web/api.go:731-745 | the registry goes on tracking the rows; it lags behind on nothing new if and only if each registered schedule of the tag was listed exactly when it was deleted; the registrations left and the rows lagged behind on are stated one by one |
| Api.LagAfterTagDeletion | internal/web/api.go:731-745 | after a deletion a tag's gone schedule is lagged behind on if it was registered and not listed, a remaining one if it was listed and demands entries, and every other row as before; nothing new lags if and only if, among the registered ones, the listed are the deleted |
| Api.RefusedTagDeletion | internal/web/api.go:731-745 | a concrete run: the deletion fails after unregistering, and the tag's stored enabled schedules are no longer registered |
| Api.InterruptedTagDeletion | internal/web/api.go:731-745 | a concrete run: the request ends after one row is read, both queries fail, and one of two stored enabled schedules is no longer registered |
| Api.MissedTagDeletion | internal/web/api.go:731-745 | a concrete run: the listing fails, the deletion succeeds, and both deleted schedules are still registered |
| Api.RefusedStackDeletion | internal/web/api.go:1147-1163 | a concrete run: the deletion fails after unregistering, and the stored enabled stack is no longer registered |
| Api.Server.ApplyOne | internal/web/api.go:825-856 | a container that has the tag is skipped; another gets one row exactly when the database takes it, with the tag's expressions and flag, registered when enabled |
| Api.Server.ApplyTag | internal/web/api.go:801-884 | whatever fails, a container has the tag afterwards if and only if it had it or the database takes one of its inserts; old rows are untouched and new ones carry the tag's expressions and flag and are registered when enabled; with every statement carried out the request splits into created and skipped, and applying again creates nothing |
| Api.AskedForStep | internal/web/api.go:825-856 | one more container keeps the exact set of containers that have the tag, also when it was asked for before |
| Api.AppliedToNone | internal/web/api.go:801-884 | when every requested container has the tag, applying it changes no row |
| Api.AppliedCoherently | internal/web/api.go:801-884 | rows created by applying a tag agree with it |
| Api.Server.RemoveTagFromContainer | internal/web/api.go:886-924 | the one row of that tag and container goes with its registrations, and nothing else |
| Api.Server.CreateStack | internal/web/api.go:997-1059 | in any state a run can reach, the ids drawn are registered as a boot would and nothing else moves; exactly the well-formed requests with a free name create a stack |
| Api.Server.UpdateStack | internal/web/api.go:1085-1145 | in any state a run can reach, whatever was registered for the stack is replaced by what a boot would register; exactly the well-formed requests are stored |
| Api.Server.DeleteStack | internal/web/api.go:1147-1163 | the registry goes on tracking the rows; it lags behind on nothing new if and only if the deletion succeeds, the stack is unknown, or nothing was registered for it |
| Api.LagAfterStackDeletion | internal/web/api.go:1147-1163 | a deleted stack is no longer lagged behind on; one that stays stored is from then on if it was registered, and no other row's standing changes |
| Api.Server.ToggleStack | internal/web/api.go:1165-1187 | adding without removing is safe in any state a run can reach: while disabled the stack owned nothing |
| Api.Server.ImportSchedules | internal/web/api.go:475-487 | the k-th entry goes in, untagged, under the k-th id drawn exactly when the database accepts it, and is registered when enabled; nothing else changes |
| Api.Server.ImportTags | internal/web/api.go:489-500 | the k-th entry goes in exactly when the database accepts it and neither an old tag nor an earlier accepted entry has its name; nothing else changes |
| Api.Server.ImportStacks | internal/web/api.go:502-521 | the k-th entry goes in exactly when the database accepts it and neither an old stack nor an earlier accepted entry has its name; nothing else changes |
| Api.NamesStep | internal/web/api.go:489-521 | inserting one entry after another under a unique name lets in exactly those accepted whose name is new, old rows and earlier accepted entries considered |
| Api.Server.Import | internal/web/api.go:444-525 | a file with any faulty entry changes nothing; otherwise exactly the entries that go in are added, each once, the counts are the rows added, and exactly the ids drawn are registered as a boot would |
| Api.ImportMeans | internal/web/api.go:444-525 | field by field: the old rows stay; a schedule entry goes in exactly when the database takes it, a tag or stack entry exactly when it does and no old row and no earlier accepted entry has its name; each row has its entry's fields |
| Api.HandleSchedule | internal/web/api.go:109-333 | each schedule request makes the one change to the rows it asks for, or none, with the exact condition, and catches up with exactly the rows it writes |
| Api.HandleTag | internal/web/api.go:604-924 | each tag request changes exactly its tag and the rows under it that the database accepts; the registry lags behind on a further row exactly when a deletion goes half-way |
| Api.HandleTagOnContainers | internal/web/api.go:801-924 | after applying exactly the containers that had the tag or one of whose inserts is taken have it; removing takes away exactly the row of tag and container, and the registry follows the rows written |
| Api.HandleStack | internal/web/api.go:997-1187 | each stack request makes the one change to the rows it asks for, or none, with the exact condition; the registry lags behind on the stack exactly when its deletion goes half-way |
| Api.Handle | internal/web/api.go:109-1187 | in any state a run can reach, every request does to the rows what it should, keeps every live entry with one owner and the registry tracking the rows, and leaves it behind on a further row exactly when a deletion goes half-way; when tag-safe, it keeps tags coherent |
| Api.Boot | internal/cli/serve.go:55-82 | a boot registers exactly what the stored rows are entitled to |
| Api.BootSchedules | internal/cli/serve.go:57-68 | every enabled schedule is registered, one after the other |
| Api.BootStacks | internal/cli/serve.go:73-82 | every enabled stack is registered beside the schedules |
| Api.ServeAndCompare | internal/web/api.go:109-1187 | over every sequence of requests, each doing to rows and registry exactly what it should: at every moment the registry tracks the rows, every live entry does what its stored row asks for, and every enabled stored row that is not lagged behind on fires; at the end it agrees with a fresh boot's on all rows it does not lag behind on, and is the same up to entry ids if and only if there are no others; tag coherence holds over tag-safe runs |
| Api.LagOfRun | internal/web/api.go:731-745 | a run in which no deletion goes half-way never lags behind |
| Api.CronsParseInRun | internal/web/api.go:109-1187 | at every moment of every run each stored expression, of a schedule, tag or stack, is empty or passes validation |
| Api.EnabledRowsFire | internal/web/api.go:109-1187 | with a runner that takes what validation takes, at every moment of every run an enabled stored schedule or stack that is not lagged behind on has a live entry for its start if and only if it has a start expression, and for its stop if and only if it has a stop expression |
| Api.TagsExistInRun | internal/web/api.go:109-1187 | however tag edits and statements fail, every tag-derived schedule's tag exists at every moment of a run whose direct creates name tags that exist |
| YamlConfig.FromSchedulesTagsAndStacks | internal/yamlconfig/config.go:53-104 | untagged schedules in order, each tag with its schedules' containers in order, and all stacks |
| YamlConfig.ExportAccountsForEverySchedule | internal/yamlconfig/config.go:53-104 | each schedule, and so each container, is exported once per place: one if untagged, one per listed tag with its id if derived |
| YamlConfig.ExportIsExhaustive | internal/yamlconfig/config.go:53-104 | with distinct tags that cover all references the untagged schedules and the tags' groups are the schedules, each exactly once |
| YamlConfig.TakenInOrder | internal/yamlconfig/config.go:53-104 | the untagged schedules and each tag's are taken from the list in its order: the taken of a concatenation are those of its parts |
| YamlConfig.ExportedFields | internal/yamlconfig/config.go:53-104 | every exported schedule, tag and stack has its row's fields, each under its own name |
| YamlConfig.ToSchedulesTagsAndStacks | internal/yamlconfig/config.go:116-208 | the whole file converted in order, or the first faulty entry, tags before schedules before stacks, with its fault |
| YamlConfig.AcceptedWhenAllPass | internal/yamlconfig/config.go:116-208 | an import is accepted if and only if every tag and schedule has its name and two expressions that parse, and every stack its name and no expression that does not; then it is the file's rows in order |
| YamlConfig.FileFields | internal/yamlconfig/config.go:116-208 | every imported row has its entry's fields, each under its own name, an empty display name becoming the container name |
| YamlConfig.RoundTrip | internal/yamlconfig/config.go:53-208 | re-import of an export succeeds if and only if all untagged schedules, tags and stacks pass their checks, and then returns them on all exported fields, an empty display name becoming the container name |
| LogRules.Wrap64 | internal/models/log_rule.go:59-64 | the signed 64-bit value congruent to the product |
| LogRules.CooldownMeaning | internal/models/log_rule.go:59-64 | the duration means its seconds if and only if they are from one to 9 223 372 036; it is negative one second later; unset means a minute |
| LogRules.TakenRules | internal/models/log_rule.go:29-57 | a rule is taken if and only if container and pattern are given, the cooldown is not negative and the match type is substring, omitted, or regex with a pattern that compiles; every taken rule compiles |
| FireWindow.After | internal/logwatch/watcher.go:170-178 | exactly the times strictly after the cutoff |
| FireWindow.AfterTwice | internal/logwatch/watcher.go:160 | pruning an already pruned list with a later cutoff is pruning the whole history |
| FireWindow.RateBound | internal/logwatch/watcher.go:12-16 | until the breaker trips every half-open ten-minute interval, wherever it starts, holds at most five fires |
| FireWindow.SpanBound | internal/logwatch/watcher.go:12-16 | over a span T at most five times ceil(T / 10 min) fires |
| FireWindow.TripMeansSixFires | internal/logwatch/watcher.go:161-167 | a fire trips the breaker if and only if it is at least the sixth of the ten minutes up to it |
| FireWindow.CooldownBound | internal/logwatch/watcher.go:139-145 | with cooldown c the ten minutes ending at a fire hold at most ceil(10 min / c) fires |
| FireWindow.CooldownRate | internal/logwatch/watcher.go:139-145 | with cooldown c every half-open ten-minute interval, wherever it starts, holds at most ceil(10 min / c) fires |
| FireWindow.CooldownForbidsTrips | internal/logwatch/watcher.go:161-167 | a cooldown of two minutes or more forbids every trip |
| FireWindow.BreakerReachable | internal/logwatch/watcher.go:139-167 | some history of fires that the cooldown allows trips the breaker if and only if the cooldown is under two minutes |
| FireWindow.BreakerReachableBySeconds | internal/models/log_rule.go:59-64 | in configured seconds, up to the longest duration, the threshold is 120 |
| Watching.CompiledRule.InCooldown | internal/logwatch/watcher.go:139-143 | reading only the last entry of the pruned slice decides the cooldown of the full history |
| Watching.CompiledRule.PruneOld | internal/logwatch/watcher.go:170-178 | the in-place filter leaves exactly the times after the cutoff, in order |
| Watching.CompiledRule.Append | internal/logwatch/watcher.go:160 | the slice grows by the new time, in place or in a new array |
| Watching.CompiledRule.Record | internal/logwatch/watcher.go:159-167 | the slice is the full history cut to ten minutes, and the breaker trips exactly when the full history has six fires in them |
| Watching.OrderIrrelevant | internal/logwatch/manager.go:138-143 | whether a line can fire does not depend on the order of the rules |
| Watching.FiredAddsOne | internal/logwatch/watcher.go:134-148 | a fire adds one to the total over all rules |
| Watching.Watcher.RateUntilReported | internal/logwatch/watcher.go:134-168 | a rule this watcher has not reported fired at most five times in any ten minutes of its life |
| Watching.Watcher.RateUntilFirstTrip | internal/logwatch/watcher.go:134-168 | the fires of any rule of this watcher before its first trip, reported or not, were at most five in any ten minutes |
| Watching.Watcher.RateByCooldown | internal/logwatch/watcher.go:134-168 | a rule of this watcher, reported or not, fired at most ceil(10 min / cooldown) times in any ten minutes of its life |
| Watching.Watcher.Evaluate | internal/logwatch/watcher.go:134-148 | a line fires at most one rule, one that matches it and whose last fire is a cooldown ago, and changes no other; without a fire every matching rule's last fire was too recent; the rule is reported exactly when the fire is at least the sixth within ten minutes |
| Watching.Watcher.TestRule | internal/logwatch/watcher.go:135-146 | a rule fires only on a match and a cooldown after its last fire, and stays silent only without a match or when its last fire was too recent |
| Watching.Watcher.FireRule | internal/logwatch/watcher.go:150-168 | only that rule's history grows, and it is reported exactly when its breaker trips |
| Watching.Watcher.Consume | internal/logwatch/watcher.go:115-130 | the last line read on a restart matches the rule that fires, out of its cooldown; whatever rule an earlier line matched had fired too recently; nothing further is read from the stream |
| Watching.Watcher.Run | internal/logwatch/watcher.go:82-113 | over any outcomes of attaching, the streams are read one after the other up to the first cancelled, each firing at most once, so fires never exceed attaches |
| Watching.ReadingMeans | internal/logwatch/watcher.go:115-148 | each reading of a run in terms of matches and times alone: fires at the first line that matches a rule out of its cooldown, and adds that one fire |
| RuleManaging.Manager.Report | internal/logwatch/manager.go:163-169 | the row is disabled now and one removal is enqueued |
| RuleManaging.Manager.NewWatcher | internal/logwatch/watcher.go:47-73 | the container's held rules that compile; exactly the others are reported, each once, disabling its row when the database carries it out |
| RuleManaging.Manager.Rebuild | internal/logwatch/manager.go:130-154 | the container's watcher runs exactly its held rules that compile, or is absent when there are none or the manager has stopped; exactly the others are reported |
| RuleManaging.RebuiltTwice | internal/logwatch/manager.go:103-114 | rebuilding two containers one after the other reports what rebuilding them together would |
| RuleManaging.Manager.Upsert | internal/logwatch/manager.go:103-114 | the rule is held exactly when enabled, both its containers are indexed again, also when it moved, and exactly their broken rules are reported |
| RuleManaging.Manager.AddRule | internal/logwatch/manager.go:86-90 | the one state that follows: the rule held when enabled, its containers rebuilt |
| RuleManaging.Manager.UpdateRule | internal/logwatch/manager.go:94-98 | the one state that follows: the edited rule held when enabled, old and new container rebuilt |
| RuleManaging.Manager.RemoveRule | internal/logwatch/manager.go:116-125 | the one state that follows: the rule not held and its container rebuilt, or nothing when it was not held |
| RuleManaging.Manager.DelayedRemoval | internal/logwatch/manager.go:168 | a removal goroutine uses up one pending removal and keeps the invariant, even when the rule was enabled again |
| RuleManaging.RemovalMeans | internal/logwatch/manager.go:116-125 | a removal takes one place and one rule, only disables rows, and enqueues only held rules that do not compile |
| RuleManaging.Manager.Quiesce | internal/logwatch/manager.go:116-154 | in any order, and whatever the database does at each step, the removals come to an end, leaving exactly the rules none was pending for, all compiling and enabled |
| RuleManaging.DrainingGoesOn | internal/logwatch/manager.go:116-171 | each removal only takes rules that had one pending and only re-reports such rules |
| RuleManaging.RebuiltIndex | internal/logwatch/manager.go:130-154 | a rebuild makes one container right and leaves the others as they were |
| RuleManaging.IndexedElsewhere | internal/logwatch/manager.go:103-125 | changing a rule leaves the index right for all containers it did not and does not name |
| RuleManaging.Manager.CreateLogRule | internal/web/api.go:1204-1228 | the one state that follows; a request is invalid exactly when it is not well-formed |
| RuleManaging.Manager.UpdateLogRule | internal/web/api.go:1230-1262 | the one state that follows; a request for a stored rule is invalid exactly when it is not well-formed |
| RuleManaging.Manager.ToggleLogRule | internal/web/api.go:1264-1278 | the one state that follows: the flag flips, enabling clears the reason, and the rule is held exactly when enabled |
| RuleManaging.Manager.DeleteLogRule | internal/web/api.go:1280-1288 | the one state that follows: the row goes and the rule with it |
| RuleManaging.CreateMeans | internal/web/api.go:1204-1228 | field by field: exactly the well-formed requests the database takes are stored as asked for under the next id, and held exactly when enabled |
| RuleManaging.UpdateMeans | internal/web/api.go:1230-1262 | field by field: the row becomes what was asked for, keeping its match time and, while disabled, its reason; it is held exactly when enabled |
| RuleManaging.ToggleMeans | internal/web/api.go:1264-1278 | the flag flips, enabling clears the reason, and the rule is held exactly when enabled |
| RuleManaging.DeleteMeans | internal/web/api.go:1280-1288 | the row and the held rule go together, and other rows are at most disabled |
| RuleManaging.TripMeans | internal/logwatch/manager.go:163-169 | the reported row is disabled for the reason given, one removal is enqueued, and nothing else changes |
| RuleManaging.StartMeans | internal/logwatch/manager.go:40-64 | after a start the held rules are exactly the enabled rows, as stored |
| RuleManaging.IndexMeans | internal/logwatch/manager.go:130-154 | with the index right each held rule that is a substring rule, or a regex rule that compiles, runs in its container's watcher, and no other rule runs anywhere |
| RuleManaging.BackingMeans | internal/logwatch/manager.go:163-169 | every held rule is stored with the same container, pattern, match type and cooldown, and is enabled there or has a removal pending |
| RuleManaging.Manager.BreakerTrip | internal/logwatch/manager.go:163-169 | a trip from any watcher, even one already stopping, keeps the invariant |
| RuleManaging.Manager.Matched | internal/logwatch/manager.go:158-162 | a match from any watcher rewrites the row's match time only, and keeps the invariant |
| RuleManaging.Manager.Step | internal/logwatch/manager.go:86-171 | each event leads to exactly one state of stored rules, held rules and pending removals |
| RuleManaging.Manager.Run | internal/logwatch/manager.go:40-171 | in every interleaving, each event with its one resulting state, each held rule is enabled in the store or pending removal, with none pending the held rules are enabled rows, and the watcher index is exact while running and empty after a stop |
| RuleManaging.Manager.Start | internal/logwatch/manager.go:40-64 | the enabled rows are held, every container is indexed and exactly the broken rules are reported; nothing changes when the listing fails |
| RuleManaging.Manager.Stop | internal/logwatch/manager.go:66-82 | no watchers, and the manager is not running |
| Accounts.Database.CreateUser | internal/store/store.go:545-562 | a new row unless username or subject is taken; an empty subject is no subject |
| Accounts.Database.UpdateUser | internal/store/store.go:597-605 | the row is rewritten unless a unique index refuses it |
| Accounts.Database.DeleteUser | internal/store/store.go:607-610 | the row goes, with its sessions where foreign keys are enforced |
| Accounts.Database.DeleteSessionsByUserID | internal/store/store.go:742-745 | exactly the user's sessions go |
| Accounts.Database.CreateSession | internal/store/store.go:700-706 | one session for the user unless its token is in use |
| Accounts.Database.DeleteSession | internal/store/store.go:732-735 | exactly that session goes |
| Accounts.Database.LinkOIDCAccount | internal/store/store.go:612-686 | all or nothing: carried out if and only if both accounts exist, the target has no subject and the source one, the source is not the last admin and every statement succeeds; then the source is gone, the target has its subject and no session, and every other session is kept |
| Accounts.Database.MoveSubject | internal/store/store.go:660-683 | the unique constraints hold after every statement of the transaction |
| Accounts.SourceMustBeClearedFirst | internal/store/store.go:660-674 | in the other order the unique index would refuse the link |
| Accounts.SelfLinkRefused | internal/store/store.go:612-646 | linking an account to itself always fails |
| Accounts.LinkConservesSubjects | internal/store/store.go:612-686 | the set of bound subjects is conserved, the target changes in its subject only, and no other account changes |
| Accounts.LinkEndsBothSessions | internal/store/store.go:708-730 | no old session of either account resolves to a user, all others resolve as before, with or without cascading deletes |
| Accounts.LinkSignsOut | internal/store/store.go:680-730 | after a link no session that either account had resolves to a user |
| Accounts.LinkKeepsAnAdmin | internal/store/store.go:648-658 | a link never removes the last admin |
| Accounts.AnotherAdmin | internal/web/admin_handlers.go:158-165 | an admin count above one leaves another admin |
| Accounts.AdminServer.AdminCreateUser | internal/web/admin_handlers.go:46-89 | one account with the fields given, an unknown role becoming reader, if and only if name and password are given, the name is free and the database takes it |
| Accounts.AdminServer.AdminUpdateUser | internal/web/admin_handlers.go:91-138 | role and password become those given, if and only if the role is known, the account exists, the database goes along and, when an admin loses the role, the count read shows another; a new password ends that user's sessions and no others; an admin remains |
| Accounts.AdminServer.AdminDeleteUser | internal/web/admin_handlers.go:140-172 | the account goes if and only if it exists, is not one's own, the database goes along and, when it is an admin, the count read shows another; with it its sessions where deletions cascade, and no others |
| Accounts.AdminServer.AdminLinkOIDC | internal/web/admin_handlers.go:174-233 | the link happens if and only if both accounts exist, the source is not one's own, only the source has a subject, the transaction succeeds and, when the source is an admin, the count read shows another; an admin remains |
| Accounts.AdminServer.Setup | internal/web/auth_handlers.go:74-113 | one admin with the name and password given if and only if the form is complete and confirmed, no users are counted and the name is free; otherwise no change |
| Accounts.AdminServer.ResolveOIDCUser | internal/web/oidc_handlers.go:122-150 | the account bound to the subject or a new reader, never an existing local account |
| Accounts.AdminServer.OIDCSignIn | internal/web/oidc_handlers.go:87-120 | the one state that follows: the resolved account, possibly new, gets one session |
| Accounts.AdminServer.SignIn | internal/web/auth_handlers.go:16-64 | a session if and only if a user of that name exists, its hash is verified, the token is unused and the database goes along; the token then resolves to that user; otherwise no session is added; accounts are untouched |
| Accounts.AdminServer.SignOut | internal/web/auth_handlers.go:66-72 | exactly the given session goes, and all others stay; accounts are untouched |
| Accounts.Handle | internal/web/admin_handlers.go:46-233 | each request leads to exactly one state of users and sessions |
| Accounts.Serve | internal/web/admin_handlers.go:91-233 | once there is an admin, every sequence of requests, each with its exact effect, leaves one at every moment; no request but a login adds a session, and a login only for the user it names |
| Accounts.OnlyLoginsAdmit | internal/web/auth_handlers.go:16-64 | a session a request adds is under its token, for the user named whose hash was verified, or for the user of the subject the provider vouched for |
| Accounts.SessionsAreEarned | internal/web/auth_handlers.go:16-64 | whoever has a session at the end of a run had it at the start or was signed in under that token during the run |
| LockTable.GetOrCreateStable | internal/ondemand/ondemand.go:322-332 | a lock once handed out is never replaced, and distinct names have distinct locks |
| WakeProtocol.InvHolds | internal/ondemand/ondemand.go:206-235 | in every run phases and lock table agree and starts are paid for by stops |
| WakeProtocol.WakesAreSerialised | internal/ondemand/ondemand.go:206-235 | at most one caller per container between lock and unlock, and wake starts at most one above running-to-stopped transitions |
| WakeProtocol.WakesNeverDeadlock | internal/ondemand/ondemand.go:206-235 | while a caller has not returned some caller can take a step |
| WakeProtocol.WakeLeavesItRunning | internal/ondemand/ondemand.go:206-235 | in every run a wake that meets no failure has, when it leaves, seen its container running under its lock; a start leaves it running, and starts only a container found stopped under the same lock |
| FireProtocol.InvHolds | internal/scheduler/scheduler.go:68-110 | in every run, registrations fetching their lock and adding or taking back entries step by step, captured locks are their containers' locks and are owned exactly while acting, and the mutex is held exactly between taking it and letting go |
| FireProtocol.FiresAreSerialised | internal/scheduler/scheduler.go:242-275 | no two callbacks or fires act on one container, an actor holds at most one lock, and the holder of the registry mutex owns none and can go on whoever owns them |
| FireProtocol.FiresNeverDeadlock | internal/scheduler/scheduler.go:153-160 | while some actor is not done some actor can take a step |
| FireProtocol.FireTakesItsContainers | internal/scheduler/scheduler.go:242-275 | at every moment of every run a stack fire has taken its containers up to some point, in order, and has exactly the others still to take; a cron callback its one container |
| FireProtocol.FireReachesAll | internal/scheduler/scheduler.go:242-275 | when a stack fire is done it has taken each of its containers, in order, once |
| LogLines.ReadCappedLine | internal/docker/logs.go:89-106 | the capped and trimmed first piece, with the reader left exactly behind its newline |
| LogLines.ScanLogLines | internal/docker/logs.go:71-84 | the lines of the stream's pieces in order, cut short only at a send that finds the receiver gone |
| LogLines.LinesAreClean | internal/docker/logs.go:86-113 | no line is longer than the cap or holds a newline |
| LogLines.LinesRestoreTheStream | internal/docker/logs.go:68-113 | ending each line with a newline restores the stream if and only if the stream is newline-terminated or empty and its pieces are within the cap and free of a trailing CR |
| LogLines.LineOf | internal/docker/logs.go:89-113 | a piece under the cap loses one CR at its end and nothing else, and of a longer piece exactly the first bytes are left |
| LogLines.LinesComeBack | internal/docker/logs.go:68-113 | round trip: lines written with LF or CRLF, in any mixture, and an unterminated rest come out as they were written |
| Splitting.JoiningPieces | internal/docker/logs.go:89-106 | joining the pieces restores the sequence and no piece holds a separator |
| Splitting.OnlyPieces | internal/docker/logs.go:89-106 | the pieces are the only separator-free list that joins to the sequence |
| CronPhrase.NeverMisleads | internal/web/cron_human.go:15-46 | the output for a valid expression is the expression itself or reads back as exactly the moments it denotes |
| CronPhrase.PhraseTellsFields | internal/web/cron_human.go:15-46 | for five valid fields in the order minute, hour, day, month, weekday the output is the expression or reads back as exactly the moments these five name, each in its place |
| CronPhrase.FieldsOfExpression | internal/web/cron_human.go:23-31 | five words with spaces between them are read as these five fields in this order |
| CronPhrase.KnownPhrases | internal/web/cron_human_test.go:9-17 | the phrases the program's own tests expect, one for each kind of day rule |
| CronPhrase.WhenHumanized | internal/web/cron_human.go:15-46 | a phrase is printed if and only if minute and hour are plain numbers, every month is meant, and the days are all, one of the month, or plain weekdays |
| CronPhrase.EqualPhrasesMeanEqualSchedules | internal/web/cron_human.go:15-46 | equal output for valid expressions means equal schedules |
| CronPhrase.HumanizingTwice | internal/web/cron_human.go:15-46 | printing is idempotent on every input |
| CronPhrase.PlainNumber | internal/web/cron_human.go:49-59 | of the valid fields the integer parser takes exactly the plain numbers, and the field matches that number only |
| CronPhrase.DaysReadBack | internal/web/cron_human.go:65-87 | the day phrase reads back as the days the three date fields denote together |
| CronPhrase.WeekdayReadsBack | internal/web/cron_human.go:91-124 | the weekday phrase reads back as the weekdays the field matches, shorthands, ranges, single days and lists alike |
| CronPhrase.WeekdayPhraseExists | internal/web/cron_human.go:91-124 | a valid weekday field has a phrase if and only if it is an ascending range or at most four numbers |
| CronPhrase.WeekdayRange | internal/web/cron_human.go:138-149 | of the valid weekday fields the range parser takes exactly the ascending ranges, with their ends |
| CronPhrase.ListReadsBack | internal/web/cron_human.go:110-121 | the joined names of a list read back as the listed weekdays |
| CronPhrase.ClockReadsBack | internal/web/cron_human.go:49-59 | the clock reads back as its hour and minute behind any day phrase |
| CronPhrase.SevenIsPrintedAsSaturday | internal/web/cron_human.go:91-97 | `0,7` lists Sunday twice and is printed as the weekend, so 7 is outside the domain |
| Text.FieldsOfTrimmed | internal/web/cron_human.go:23-27 | trimming leaves the fields alone |
| Text.TrimmingTwice | internal/web/cron_human.go:23 | trimming is idempotent |
| Text.TrimmedMiddle | internal/web/cron_human.go:23 | trimming takes off spaces at both ends and nothing else, and leaves none there |
| Text.FieldsPart | internal/web/cron_human.go:27 | the fields of two strings with a space between them are those of the first and then those of the second |
| Text.FieldsOfWord | internal/web/cron_human.go:27 | a word without spaces is its own only field |
| Text.OnlyWords | internal/web/cron_human.go:27 | words joined with spaces are the fields, in the same order |
| Text.LeadingDigit | internal/web/cron_human.go:49-59 | the digits of a number count by their places |
| Text.Itoa | internal/web/cron_human.go:81 | digits only, with the number's value |
| Text.Pad2 | internal/web/cron_human.go:58 | two digits with the number's value |

## Left out

- On-demand watching: the handlers' `Watch`, `Unwatch` and stack calls on the on-demand manager are skipped; its maps do not follow the store (`internal/web/api.go:731-745` does not unwatch), so there is no agreement to prove.
- Wakes of stacks: `WakeStack` takes no lock (`internal/ondemand/ondemand.go:449-483`), so there is no serialisation to prove.
- Concurrent requests: the admin guard counts and deletes in separate statements (`internal/web/admin_handlers.go:160-167`), so it is proved for requests handled one at a time only.
- LogRules.Normalize: assigns the match type in place in the program; here it is a function on the rule value, so aliasing of the rule is not modelled.
- RuleManaging.Manager.Rebuild: a watcher is represented by the set of rules it runs; its goroutine, stopped asynchronously, appears only as the breaker reports it may still send.
- RuleManaging.Manager.Run: does not state that every enabled row is held, because a late removal can drop a rule that was enabled again meanwhile.
- Watching.Watcher.Run: retry delays are left out, and restarting the container is a step whose failure is only logged.
- Watching.Watcher.Evaluate: the clock may move while the rules are tried, so the exact condition to fire is stated for a clock that stands still meanwhile, and bounds on both sides otherwise.
- FireWindow.BreakerReachableBySeconds: stated up to the longest duration; beyond it the 64-bit product wraps, as CooldownMeaning shows, and BreakerReachable speaks of the wrapped value.
- CronPhrase.NeverMisleads: fields with 7 for Sunday, names, steps or question marks are outside the POSIX domain and so outside the theorem.
- The Docker client, HTTP, templates, YAML text, SQLite, password hashing, OIDC exchanges, session expiry, log output and the regex and cron engines.
- Health probes, idle tracking, role ordering, port selection, presets and schema migrations: single branches over input and output.
