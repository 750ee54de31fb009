# Proofs about setup

A Dafny model of the parts of setup that change databases, code trees and configuration files step by step, and can be
stopped or killed between any two steps. What the operations do is modelled branch by branch; what they promise is
proved for every input, every run and every place a run can be cut off.

`dafny verify dfyconfig.toml` checks everything. A class is used where the code changes something in place, a method
with a loop where it loops, functions and lemmas otherwise. The modules, in the order they build on each other:

| modules | model |
|---|---|
| `Wrappers`, `Sequences`, `NameSeqs`, `PythonText` | optional values and results; sequences, and those of different names; white space and lines |
| `SchemaDdl`, `SchemaRestart`, `SchemaDraft`, `SchemaMigration` | guarded statements on a schema, scripts of them stopped and run again, and the differ that drafts them |
| `MigrationRuns`, `MigrationChain`, `MigrationTurns` | `migrate` and `rollback` with a cut-off behind any statement, any sequence of such runs, and one after the other |
| `DeployRemovals`, `DeployReleases`, `DeployHistory`, `DeployRun`, `ProtectedPaths` | what a deploy removes and which copies it keeps, the history as a protocol, the deploy itself as a run of that protocol, and protected paths as rsync and the removal read them |
| `PipelineProtocol`, `PipelineAttempts`, `PipelineRepair` | pipeline runs, their make steps and their lock as interleaved processes; attempts; the repair after a kill |
| `Calendar`, `CronSchedule` | the Gregorian calendar, the field parser and the search for the next run |
| `Destination`, `Publish` | the walk to a destination through links on open descriptors, and the publish of a staged tree |
| `DumpScan`, `DumpFilter`, `DumpTables` | the dump scanner and filter, and what they find and leave out, statement by statement |
| `DefineCalls`, `DefinePatches`, `DefineUpdate`, `DefineFile`, `DefineResult` | the update of PHP defines in a source, from tokens to offsets and back |
| `LegacyText`, `LegacyFile`, `LegacyRoundTrip`, `LegacyContents`, `TranslationApply`, `TranslationDraft` | translation files written, read back, refused and migrated |
| `ReplyFrame` | the framed reply of a removal |
| `PathFilters` | backup patterns compiled to rsync filters |
| `EnvFile`, `EnvForms`, `EnvWrite`, `EnvOrder`, `EnvValues`, `EnvSettings` | env files read, and values set in them, one and several, in their sections |

Where a property the code is meant to have does not hold of it, the model follows the code, a lemma gives the input, and
another says exactly when it holds:

* A change of column order drafts no statement (`SchemaMigration.MovedColumnIsNotDrafted`); everything else about a
  drafted migration holds if and only if no common column moved and no TODO is left (`SchemaMigration.DraftRestartable`).
* `make db-rollback steps=k`, interrupted and repeated with the same k, rolls back more than k migrations
  (`MigrationChain.StepsRerunGoesTooFar`, `MigrationChain.StepsRerun`); `to=M` does not (`MigrationChain.RollbackEnds`).
* `make db-migrate` after a rollback cut off inside a way back does not bring back what is undone, as the migration is
  recorded still (`MigrationTurns.HalfUndoneStays`, exactly when the schemas are right all the same,
  `MigrationTurns.MigrateHalfUndone`); the rollback run again does end (`MigrationChain.RollbackEnds`).
* A removal keeps a stale file whose name is a directory of the new release, and does not leave it pending. The copy has
  replaced such a file, unless it leaves the directory out; where that directory is not protected, the file stays and is
  forgotten. Of checked patterns only those with two stars in a row can do that: `ProtectedPaths.StarsForget` is the run
  under `a/***`, `DeployHistory.Forgets` one for any such releases, `DeployHistory.RemovalsEnd` says exactly when a removal
  leaves nothing so, and `ProtectedPaths.DeploysKeep` that no other pattern comes to it.
* A protected path is meant to be that path or what is inside it. Without a slash at its end it also protects every name
  beside it that starts as it does: `/a` protects `ab` (`ProtectedPaths.NeighbourProtected`; exactly what,
  `ProtectedPaths.PlainProtects`).
* An attempt is deployed forward at most once by any runs, but `make deploy attempt=ID` started by hand asks nothing about
  the attempt and adds one deploy each time (`PipelineAttempts.EveryRunKeeps`, `PipelineAttempts.DeployedByHand`).
* A pipeline run killed after its images are built and before the marker says so is repaired to the commit before the
  run, where its own end would have stayed on the new one (`PipelineRepair.ImagesNotNoted`, exactly when,
  `PipelineRepair.RepairMeetsOwnEnd`). The same happens after a failed health check, before the marker is removed
  (`PipelineRepair.DeployNotSeen`, `PipelineRepair.RepairAfterFailedHealth`).
* A publish stops with an error at a staged file or link where the live tree has a directory
  (`Publish.Publisher.PlaceEntry`), with what was published before it in place (`Publish.Publisher.Publish`).
* A translation whose key or text holds `$_MODULE[` is written, and the file is refused from then on
  (`LegacyRoundTrip.RoundTrip`, `TranslationApply.ApplyAgain`).
* A value set in an env file is not read when the last line of its key is indented, exported or has a space before its
  equals sign, stands where it has the last word and says something else: such a line is not replaced
  (`EnvValues.ExportedStays`; exactly when, `EnvValues.SetReads` for one value and `EnvSettings.AllReadIff` for several).
* The keys of a section are written in a fixed order, but a new key goes below every key that is listed nowhere: where one
  stands below a key that comes later, the order is lost (`EnvOrder.StrayPutsLast`; exactly when,
  `EnvOrder.InsertKeepsOrder`). The order of the sections is kept (`EnvOrder.SectionKeepsOrder`).

## Model

| member | source | states |
|---|---|---|
| SchemaRestart.DoneSkips | docker/database_migrations_guarded.py:128-133 | a guarded statement whose effect is there already changes nothing |
| SchemaRestart.ExecDone | docker/database_migrations_guarded.py:128-133 | after a guarded statement ran, its effect is there |
| SchemaRestart.DoneKept | docker/database_migrations_guarded.py:128-133 | a statement about another table, column or key leaves an effect that is there in place |
| SchemaRestart.Rerun | docker/database_migrations_guarded.py:128-133 | a script stopped behind any statement and run again from its start up to any statement gets exactly as far as the further of the two runs |
| SchemaRestart.RestartsEnds | docker/database_migrations_guarded.py:162-207 | such a script run again after any stop ends in the same schema as one uninterrupted run, and changes nothing on that schema |
| SchemaDraft.ColumnChanges | docker/database_migrations_guarded.py:166-175 | the loop over the new columns drafts exactly the additions (first, or after the column before) and the changed definitions |
| SchemaDraft.DropChanges | docker/database_migrations_guarded.py:176-178 | one drop for each column the new definition has no more |
| SchemaDraft.KeyChanges | docker/database_migrations_guarded.py:179-188 | the loop over the new keys drafts the new ones, and a TODO for a changed one |
| SchemaDraft.GoneKeyChanges | docker/database_migrations_guarded.py:189-191 | one guarded drop for each key that is gone, in whatever order the set gives them |
| SchemaDraft.TableChanges | docker/database_migrations_guarded.py:162-194 | columns, drops, keys, gone keys and the constraint or option TODO, in that order |
| SchemaDraft.ColumnsResult | docker/database_migrations_guarded.py:166-178 | after the column statements and drops the table has the new columns with their new definitions, and in the new order if and only if the common columns kept their relative order |
| SchemaDraft.DropsRun | docker/database_migrations_guarded.py:176-178 | the drops leave the other columns in their order |
| SchemaDraft.KeysResult | docker/database_migrations_guarded.py:179-191 | after the key statements the table has exactly the new keys, if no common key changed |
| SchemaDraft.TableDraft | docker/database_migrations_guarded.py:162-194 | the statements of one table run without an error, and end in the new definition if and only if no TODO was left and no common column moved |
| SchemaMigration.CommonChanges | docker/database_migrations_guarded.py:202-204 | the loop over the tables in both schemas drafts those that differ |
| SchemaMigration.DraftChanges | docker/database_migrations_guarded.py:197-207 | new tables, changed tables, dropped tables |
| SchemaMigration.DraftApart | docker/database_migrations_guarded.py:162-207 | no two statements of a drafted migration are about the same table, column or key |
| SchemaMigration.DraftReaches | docker/database_migrations_guarded.py:162-207 | a drafted migration runs on its old schema without an error, and gives exactly the new one if and only if it has no TODO and no common column moved |
| SchemaMigration.DraftTodo | docker/database_migrations_guarded.py:162-207 | a drafted migration leaves a TODO exactly when a table in both schemas has a changed key, constraint or option; so it is complete exactly when it leaves none and no common column moved |
| SchemaMigration.DraftRestartable | docker/database_migrations_guarded.py:162-207 | stopped behind any statement and run again it gives the new schema, and on the new schema changes nothing, if and only if it is complete |
| SchemaMigration.DraftInvertible | docker/database_migrations_guarded.py:197-216 | the drafted way back restores the old schema from the new one and, run again, from any partial state of its own, exactly when the way forward is restartable |
| SchemaMigration.CompleteBothWays | docker/database_migrations_guarded.py:197-216 | a migration is complete exactly when its way back is |
| SchemaMigration.MovedColumnIsNotDrafted | docker/database_migrations_guarded.py:166-175 | swapping two columns drafts nothing, so no run of that migration gives the new schema |
| MigrationRuns.Server.Execute | docker/database_migrations_guarded.py:456-460 | one script in its schema, cut off after any number of statements |
| MigrationRuns.Server.MigrateAll | docker/database_migrations_guarded.py:468-491 | the pending migrations in order, each recorded after its last statement, stopping at the first failure; from the first unrecorded migration with a TODO on nothing is run or recorded, and the run is not done |
| MigrationRuns.MigrateUpToTodo | docker/database_migrations_guarded.py:474-477 | with an unrecorded migration that has a TODO the run is that of the files before it, and refused if that is done |
| MigrationRuns.ApplyRecords | docker/database_migrations_guarded.py:474-490 | the records grow by the first of the pending migrations, in their order, and by all of them when the run is done |
| MigrationRuns.Server.RollbackTo | docker/database_migrations_guarded.py:494-537 | a request for less than one step, down to a migration that is not recorded, or over one whose file is missing, has no way back or a TODO in it is refused and changes nothing, any other is not refused; nothing but what is asked for is forgotten, and all of it when the run is done |
| MigrationRuns.TargetsAre | docker/database_migrations_guarded.py:503-511 | the targets are exactly the last steps, or the records behind the last one of the migration to keep, newest first; there are none exactly for a request that is refused |
| MigrationRuns.RollbackRefusals | docker/database_migrations_guarded.py:500-525 | exactly which requests are refused, before anything changes |
| MigrationRuns.RollbackForgets | docker/database_migrations_guarded.py:526-537 | a rollback, stopped anywhere, forgets nothing it was not asked for, and when it is done all it was |
| MigrationChain.DraftIsLink | docker/database_migrations_guarded.py:197-216 | a complete drafted migration of one schema is a link of a chain |
| MigrationChain.ScriptAgain | docker/database_migrations_guarded.py:456-460 | a script that was underway, run again from its start under any cut-off, is as far as it was or further; at its end the schema is the new one and the other schemas are untouched |
| MigrationChain.ApplyRun | docker/database_migrations_guarded.py:468-491 | one migrate run from any underway state of the chain ends in such a state, no further back, and at the end of the chain when it succeeds |
| MigrationChain.MigrateEnds | docker/database_migrations_guarded.py:381-392 | any sequence of migrate runs that fail anywhere: the records are always a prefix of the chain, once each; once one succeeds the schemas are the last ones and every migration is recorded exactly once |
| MigrationChain.TargetsDown | docker/database_migrations_guarded.py:500-510 | the targets of a rollback are the last steps, or all after the named migration, newest first |
| MigrationChain.RollbackRun | docker/database_migrations_guarded.py:494-537 | one rollback run, cut off anywhere, leaves a state of the chain between its start and its goal |
| MigrationChain.RollbackEnds | docker/database_migrations_guarded.py:494-537 | a rollback to a migration that fails and is run again ends, once a run succeeds, with the schemas and records of the prefix up to it |
| MigrationChain.StepsRerun | docker/database_migrations_guarded.py:509-511 | a rollback of k steps, interrupted and run again with the same k, ends where one run would have ended if and only if the interrupted run forgot none, or k covered every migration anyway |
| MigrationChain.StepsLeft | docker/database_migrations_guarded.py:509-511 | run again with the steps that are left it does |
| MigrationChain.MigratedIsUndone | docker/database_migrations_guarded.py:468-537 | a fully migrated database is a state a rollback starts from |
| MigrationChain.StepsRerunGoesTooFar | docker/database_migrations_guarded.py:509-511 | three migrations, a rollback of two cut off after the first: the same request again forgets all three |
| MigrationTurns.TurnPoint | docker/database_migrations_guarded.py:468-537 | between two scripts migrations and rollbacks may follow each other in any order: where one stops the other starts |
| MigrationTurns.MigrateHalfUndone | docker/database_migrations_guarded.py:468-492 | after a rollback cut off inside a way back, migrations of other schemas run as if it had not begun and leave its schema as it is; they end in the last schemas exactly if what ran of it changed nothing, and with nothing pending they do nothing |
| MigrationTurns.RollbackHalfApplied | docker/database_migrations_guarded.py:495-537 | the same for a rollback after a migration cut off inside its script |
| MigrationTurns.HalfUndoneStays | docker/database_migrations_guarded.py:468-537 | a rollback cut off between the drop of a table and its record, and then a migrate that finds nothing pending: the table stays away |
| DeployRemovals.RemovalSources | docker/project_deploy.py:318-328 | the loop collects the commits whose files may still be on the target and the names still pending, back to the last deploy whose removals were done |
| DeployRemovals.SourcesAreNamed | docker/project_deploy.py:318-328 | what it collects is exactly what a declarative reading of the history names |
| DeployRemovals.RemovedFiles | docker/project_deploy.py:331-357 | the names to remove: named by the history before the deploy, not shipped by it, not protected, safe |
| DeployRemovals.SafeIsSettled | docker/project_deploy.py:303-309 | a name is safe exactly when it is its own path below the target, with nothing to settle on the way, and holds no control character |
| DeployRemovals.Tree.Remove | docker/remove_inside.py:63-93 | every name, sorted, ends as its fate says, also when the removal is cut off: kept with a directory a shipped file lies in, pending at a directory, a file the server holds or below a file that stays, otherwise gone |
| DeployReleases.NewestReleases | docker/project_deploy.py:430-454 | the prune finds the newest completed releases, redeploys counting once |
| DeployReleases.FoundAreNewest | docker/project_deploy.py:430-454 | found are exactly the commits with a completed deploy behind which fewer than the limit were completed |
| DeployReleases.PruneReleases | docker/project_deploy.py:430-454 | of the copies in any order of their times those stay that are among the first three, the one to keep, the last entry's, or a commit with a completed deploy behind which fewer than three others completed |
| DeployReleases.RollbackGoesTo | docker/project_deploy.py:106-109 | a rollback goes to the latest completed entry of another commit than the last entry's, and to none exactly when there is none |
| DeployReleases.OneMoreIsEnough | docker/project_deploy.py:106-109 | a release found beforehand pushes at most one other out of the newest |
| DeployReleases.OneMoreAddsNothing | docker/project_deploy.py:430-454 | and none is found instead that was not |
| DeployReleases.RollbackCopyKept | docker/project_deploy.py:702-711 | when the copies are kept as they should be, the release a rollback returns to has its copy |
| DeployReleases.RecordKeeps | docker/project_deploy.py:748-761 | recording a deploy keeps them so, after a completed or a failed one |
| DeployReleases.UsedCovers | docker/project_deploy.py:430-454 | what a prune never removes holds every copy a rollback may need |
| DeployReleases.PruneKeeps | docker/project_deploy.py:430-454 | a prune keeps them so, whatever the copies' times |
| DeployHistory.NamedWasShipped | docker/project_deploy.py:318-357 | every name a removal is given was shipped by some recorded deploy |
| DeployHistory.RemovalsEnd | docker/project_deploy.py:763-779 | when a removal step ends, every stale file still on the target is the new release's or left pending, exactly when none of the files to remove has the name of a directory of the new release that its copy leaves out |
| DeployHistory.RemovalsEndWell | docker/project_deploy.py:763-779 | it is so after every removal where such directories are protected |
| DeployHistory.StaysWhy | docker/remove_inside.py:63-93 | why a removable file that is still there after a removal stayed: the server, or a directory that the copy left out |
| DeployHistory.StepKeeps | docker/project_deploy.py:748-864 | every step of a deploy, with kills after the recorded copy, keeps the invariant |
| DeployHistory.InitialOk | docker/project_deploy.py:102-104 | an empty history, with whatever the target holds, satisfies the invariant |
| DeployHistory.CopiedTarget | docker/project_deploy.py:462-467 | after a copy the target is a tree, and a file stays in the place of a directory of the release only where the copy does not get to that directory |
| DeployHistory.EveryRunKeeps | docker/project_deploy.py:679-864 | from an empty history, over every sequence of deploys, failures, kills, rollbacks, prunes and health checks: no stale file is forgotten, if the directories that a copy leaves out are protected, and the rollback release keeps its copy |
| ProtectedPaths.UnsentIsProtected | docker/project_deploy.py:312-315 | what rsync leaves out under checked patterns without two stars in a row, a file or a directory, is_protected holds of |
| ProtectedPaths.PlainProtects | docker/project_deploy.py:312-315 | a pattern without a star and with a slash at its end protects that directory and all in it; without the slash every name that starts as it does |
| ProtectedPaths.NeighbourProtected | docker/project_deploy.py:312-315 | the protected path /a also protects the file ab, which rsync does not exclude |
| ProtectedPaths.DeploysKeep | docker/project_deploy.py:679-864 | under such patterns no sequence of deploys, failures, kills, rollbacks, prunes and health checks forgets a stale file |
| DeployHistory.UnlinksOnlyStale | docker/project_deploy.py:331-357 | only files that a recorded deploy shipped, that the new release does not ship and that are not protected are unlinked |
| DeployHistory.Forgets | docker/remove_inside.py:79-82 | wherever a release has a directory that its copy leaves out, unprotected, in the place of a file another one ships, and may be copied over it, two deploys forget that file: it stays and no later deploy looks for it |
| ProtectedPaths.StarsForget | docker/project_deploy.py:71-81 | the protected path a/***: rsync leaves the directory a out and is_protected does not hold of a; a release with the file a and then one with a/b, and the file is forgotten |
| DeployRun.Deployer.CopyAndRecord | docker/project_deploy.py:756-761 | the copy and its record are the protocol's first step |
| DeployRun.Deployer.RemoveStale | docker/project_deploy.py:768-779 | the removal, cut off anywhere, is a sequence of the protocol's unlink steps |
| DeployRun.Deployer.LockedDeploy | docker/project_deploy.py:679-794 | one deploy, ended by success, an error or a kill anywhere after its record, is a run of the protocol; on success its entry has no failure left |
| DeployRun.Deployer.StopHere | docker/project_deploy.py:791-794 | a stage that raises leaves its name in the entry, a kill leaves the entry as it was |
| DeployRun.Deployer.DeployHealth | docker/project_deploy_health.py:189-257 | refused exactly unless the last deploy is the named attempt's, a rollback when one is to be checked, and completed or failed only its check; otherwise the health step of both protocols, with the exit status |
| PipelineProtocol.OneRunAtWork | docker/project_attempts.py:109-124 | two processes at work under the environment lock are a run and the make step it waits for |
| PipelineProtocol.LockKept | docker/project_pipeline.py:427-430 | every step keeps the lock, also when a pipeline process dies while its make child lives on with the inherited descriptor |
| PipelineProtocol.GoneKeepsLock | docker/project_pipeline.py:313-318 | a killed process gives the lock up only when no other one shares it |
| PipelineAttempts.WritersKept | docker/project_deploy.py:668-671 | whatever other processes do, a deploy at work finds its own entry last, which is why it may write over the last entry unseen; and a run that saw its rollback pass its check still finds it passed |
| PipelineAttempts.HistoryDiscipline | docker/project_deploy.py:668-671 | whoever changes the history is at work alone, but for the run that waits for it, and appends one entry or rewrites the last one, with the same commit, attempt and direction: because of the lock, not because the rewrite looks |
| PipelineAttempts.HealthKept | docker/project_deploy_health.py:232-255 | health is failed exactly when an entry failed its health check |
| PipelineAttempts.DecisionsKept | docker/project_pipeline.py:496-510 | what a run decided about its attempt stays true while it works |
| PipelineAttempts.ModeIsTrue | docker/project_pipeline.py:496-509 | what a run decides about its attempt: new exactly when nothing knows it, follow-up exactly with its own failed deploy last, resumed exactly after its own update |
| PipelineAttempts.ModesKept | docker/project_pipeline.py:455-493 | until it accepts, what a run decided stays so, and a follow-up rollback has its own failed deploy last until it starts |
| PipelineAttempts.TurnKept | docker/project_pipeline.py:433-494 | the one forward deploy of an attempt is at most one process' turn, handed from a run to its make deploy |
| PipelineAttempts.AttemptKept | docker/project_pipeline.py:433-520 | every step keeps an attempt to at most one forward history entry, counting the turn still to come |
| PipelineAttempts.EventsGrow | docker/project_attempts.py:145-164 | an attempt's events are only appended to |
| PipelineAttempts.RolledBackOnlyChecked | docker/project_deploy_health.py:275-287 | an attempt becomes rolled back only in a step behind which the last deploy is its own rollback and has just passed its health check, be it the run's check or a workflow's |
| PipelineAttempts.LiveOnlyDeployed | docker/project_deploy_health.py:275-287 | an attempt becomes live only behind a deploy that is no rollback: when its run settles after its deploy ended well, or when a check of its own last deploy passes |
| PipelineAttempts.StepKeeps | docker/project_pipeline.py:611-745 | every step of every process keeps the invariant |
| PipelineAttempts.InitialOk | docker/project_pipeline.py:427-430 | with no history, no attempt and no process the invariant holds |
| PipelineAttempts.EveryRunKeeps | docker/project_pipeline.py:788-810 | over any interleaving of runs, repeats, follow-up and automatic rollbacks, restarts after a setup update, make steps started by hand or by a workflow, and kills: at most one forward deploy for each attempt nobody deploys by hand, events only appended, no two runs at work at once |
| PipelineAttempts.DeployedByHand | docker/project_deploy.py:661-665 | make deploy asks nothing about its attempt: each one started by hand adds one more forward deploy of it |
| PipelineRepair.RepairMeetsOwnEnd | docker/project_pipeline.py:337-374 | killed anywhere from its marker to the end of its deploy, the repair goes where the run's own end would have gone, if and only if the deploy completed, the images' note agrees with the images, or the commits are the same |
| PipelineRepair.RepairAfterFailedHealth | docker/project_pipeline.py:350-374 | after a failed health check and before the marker is removed, the repair goes back although the new code is live, unless the images were noted or the commits are the same: exactly then it agrees with the run's own end |
| PipelineRepair.Root.Prepare | docker/project_pipeline.py:691-714 | marker, checkout, checks and images, up to the kill, which happens exactly if its point is reached |
| PipelineRepair.Root.Finish | docker/project_pipeline.py:715-743 | after the deploy: the checkout follows it, then the health check rewrites its entry, up to the kill, which happens exactly if its point is reached |
| PipelineRepair.Root.RunStep | docker/project_pipeline.py:680-743 | one run is killed exactly if it reaches the point given, in a state it can have left there; otherwise it ends as its fate says, with the marker gone |
| PipelineRepair.Root.Repair | docker/project_pipeline.py:337-374 | the next run's repair moves the checkout only if it has to, and the marker is gone |
| PipelineRepair.KilledAndRepaired | docker/project_pipeline.py:680-743 | a run killed wherever it comes to, and then the next run's repair: the build root where the same run would have left it on its own, the kill being the failure of its next step, but for two points, which go back to the commit before |
| PipelineRepair.ImagesNotNoted | docker/project_pipeline.py:701-704 | a run at one commit to another, killed between building its images and noting it: the repair goes back, the run's own end would have stayed |
| PipelineRepair.DeployNotSeen | docker/project_pipeline.py:350-374 | a run that deployed and is killed once its health check failed: the repair goes back, the run's own end is at the deployed commit |
| Calendar.DayNumberOf | docker/runtime/cron/compose.php:239-258 | the closed form of the day number is the inverse of counting days from 1970 one by one, in both directions |
| Calendar.NextDayNumber | docker/runtime/cron/compose.php:239-258 | the closed form grows by one from each day of the Gregorian calendar to the next |
| Calendar.MonthEnd | docker/runtime/cron/compose.php:246-247 | the first day of the next month is the day after the last of this one |
| CronSchedule.ItemValues | docker/runtime/cron/compose.php:211-229 | the values of one item of a field: star, number or range, with its step |
| CronSchedule.NamesByForm | docker/runtime/cron/compose.php:211-229 | what each form of an item names: a star all values by its step, a number itself or, with a step, every value from it up, a range its own |
| CronSchedule.ItemOkByForm | docker/runtime/cron/compose.php:217-228 | which items are valid, form by form |
| CronSchedule.FieldValues | docker/runtime/cron/compose.php:208-232 | the values of a field are those any of its items names; refused with a value out of bounds, an empty range or a zero step |
| CronSchedule.CronFields | docker/runtime/cron/compose.php:204-236 | five fields with their own bounds, or nothing |
| CronSchedule.ScanIsLeast | docker/runtime/cron/compose.php:239-258 | looking at every minute finds the least whole minute that matches before the limit, and none exactly when there is none |
| CronSchedule.MonthJump | docker/runtime/cron/compose.php:246-247 | the jump to the next month passes over no matching minute and moves time forward |
| CronSchedule.DayJump | docker/runtime/cron/compose.php:248-251 | neither does the jump to the next day |
| CronSchedule.HourJump | docker/runtime/cron/compose.php:252-253 | nor the one to the next hour |
| CronSchedule.MinuteJump | docker/runtime/cron/compose.php:254-255 | nor the one to the next minute |
| CronSchedule.CronNextRun | docker/runtime/cron/compose.php:239-258 | the jumping search finds the first whole minute after the start that matches, or none within 366 days; it is what the scan of every minute finds, and with two restricted day fields the earlier of the runs by either of them |
| CronSchedule.PlainStarIsUnrestricted | docker/runtime/cron/compose.php:248-251 | with a plain star in one day field the other decides alone, as the crontab utility of POSIX.1-2017, section INPUT FILES, has it |
| CronSchedule.MatchesByDays | docker/runtime/cron/compose.php:248-251 | with neither day field starred a minute matches when the schedule by days of the month or the one by days of the week does, otherwise when both do |
| CronSchedule.RunsOnEither | docker/runtime/cron/compose.php:248-251 | with neither day field starred the next run is the earlier one of those two schedules |
| CronSchedule.PartsOfTime | docker/runtime/cron/compose.php:245-253 | a whole minute put together again from its date, hour and minute is itself |
| Destination.ResolveConcat | docker/sandbox_ops.py:162-196 | resolving one path after another is resolving their concatenation under one budget of links |
| Destination.ResolveStaysInside | docker/sandbox_ops.py:162-196 | the reference resolver stays below the root, at a directory, and only adds directories |
| Destination.ResolveThroughDirectories | docker/sandbox_ops.py:162-196 | through directories alone a path is refused exactly when it leads above the root on its way, and ends as deep as its names and steps up say |
| Destination.ResolveNames | docker/sandbox_ops.py:176-185 | names lead down one by one, and exactly the directories missing on the way are added |
| Destination.ResolveChain | docker/sandbox_ops.py:186-193 | a chain of links takes one hop for each and is refused when they run out |
| Destination.ResolveLoop | docker/sandbox_ops.py:186-193 | a link to itself and an absolute link are refused however many hops are left |
| Destination.ResolveLink | docker/sandbox_ops.py:186-193 | putting a link's target before the parts still pending resolves to the same place as resolving the link first |
| Destination.Sandbox.OpenDirectory | docker/sandbox_ops.py:154-159 | opens one part below an open directory and refuses a link or a file there |
| Destination.Sandbox.EnsureDirectory | docker/sandbox_ops.py:176-185 | opened, or created and opened |
| Destination.Sandbox.Walk | docker/sandbox_ops.py:162-196 | the walk with its descriptor stack ends (within its budget of 40 links), gives what the reference resolves to or its refusal, changes nothing but new directories, and closes every other descriptor it opened |
| Publish.PublishMerges | docker/sandbox_ops.py:199-225 | after a publish that ends: every staged path is there (a file or link with ignore_existing only where nothing was), every other path is as it was, only a file or link is ever replaced, with ignore_existing only by a directory; what is renamed leaves the staging directory |
| Publish.MergedTwice | docker/sandbox_ops.py:199-225 | publishing some staged paths and then others is publishing them together |
| Publish.PublishedNext | docker/sandbox_ops.py:199-225 | the same for what has been published, with the staging directory emptied as it goes |
| Publish.Publisher.PlaceDirectory | docker/sandbox_ops.py:202-211 | a directory in the live tree, created or put in place of a link or file |
| Publish.Publisher.PlaceEntry | docker/sandbox_ops.py:218-224 | a staged file or link linked or renamed; refused exactly when it would be renamed over a directory |
| Publish.Publisher.PublishEntry | docker/sandbox_ops.py:200-224 | one entry with all below it, or up to the first conflict |
| Publish.Publisher.Publish | docker/sandbox_ops.py:199-225 | everything staged below a directory is published, or the paths before the first conflict, in whatever order; it succeeds if and only if no staged file or link lands on a live directory |
| DumpScan.LinesAreTheData | docker/database_import.py:118-123 | the ended lines and the pending rest are the data, cut after every line end |
| DumpScan.LinesInPieces | docker/database_import.py:118-123 | data in two pieces gives the same lines as in one |
| DumpScan.DumpScanner.constructor | docker/database_import.py:113-116 | a scanner that has read nothing |
| DumpScan.DumpScanner.ReadOne | docker/database_import.py:125-142 | what one line adds to schemas, tables and columns (what it all comes to: DumpTables) |
| DumpScan.DumpScanner.Feed | docker/database_import.py:118-123 | however the data is cut, the scanner has read the lines ended so far and keeps the rest |
| DumpScan.DumpScanner.Result | docker/database_import.py:144-149 | the result is that of scanning all the data at once, an unended last line included (for a well-formed dump, DumpTables.ScanFinds) |
| DumpScan.EndsIs | docker/database_import.py:138-142 | a line ends a statement exactly when its last character that is not white space is a semicolon |
| DumpTables.DefinitionRead | docker/database_import.py:132-142 | a definition gives its table, named with its schema outside the main one, the columns of its first line and those its other lines start with |
| DumpTables.ScanFinds | docker/database_import.py:105-149 | of a well-formed dump the scan finds exactly the schemas it switches to and the tables defined in the schemas that are read, each with exactly the columns of its last definition |
| DumpFilter.FilterDump | docker/database_import.py:171-194 | the filter's loop |
| DumpFilter.FilterDropsStatements | docker/database_import.py:171-194 | of a well-formed dump it drops exactly the whole data statements of skipped tables, and returns exactly their names |
| DumpTables.FilterLeavesOut | docker/database_import.py:171-194 | skipped are exactly the tables to skip, by their names in their schemas, that have data statements; those statements are left out and all others kept in order |
| DumpFilter.NothingOpen | docker/database_import.py:132-142 | between the statements of a well-formed dump no table definition is open |
| DumpFilter.FilterKeepsStructure | docker/database_import.py:171-194 | scanning the filtered bytes finds the same schemas, tables and columns as scanning the dump |
| DefinePatches.SplicedAll | docker/runtime/prestashop.php:230-233 | replacements at offsets made from the last to the first replace each range in its place and nothing else |
| DefineCalls.StopIsFirst | docker/runtime/prestashop.php:211-222 | an argument stops at the first comma or closing parenthesis before which as many brackets of the three kinds are closed as opened, and nowhere exactly when there is none |
| DefineCalls.HoldsIs | docker/runtime/prestashop.php:213-221 | tokens hold an argument together when none of them could end it, and are closed when as many brackets close as open |
| DefineCalls.DefineInAnyCase | docker/runtime/prestashop.php:204 | a define is called by its name in any mix of small and capital letters |
| DefineCalls.PatchedTwice | docker/runtime/prestashop.php:199-221 | patching a patched source changes nothing |
| DefineCalls.PatchedArguments | docker/runtime/prestashop.php:199-221 | after patching every managed define has its expression |
| DefineCalls.PatchedFrame | docker/runtime/prestashop.php:199-221 | and everything but the managed arguments is as it was |
| DefineCalls.SeparateConcat | docker/runtime/prestashop.php:199-221 | sources put together have the defines of both |
| DefineUpdate.ScanSucceeds | docker/runtime/prestashop.php:199-221 | the scan is refused exactly when a managed define has no end or its key is defined twice |
| DefineUpdate.ScanIs | docker/runtime/prestashop.php:189-221 | without managed defines inside managed arguments the scan finds exactly the argument of each, at its offset |
| DefineFile.FindStop | docker/runtime/prestashop.php:212-219 | the first comma or closing parenthesis with no bracket of the three kinds left open before it |
| DefineFile.ScanSource | docker/runtime/prestashop.php:199-221 | the loop over the tokens: patches, keys found, the first closing tag |
| DefineFile.RefusesFirstMissing | docker/runtime/prestashop.php:224-230 | a file that can be scanned is refused exactly when its defines have to be there and a listed key is missing; the first such key is named |
| DefineFile.PatchText | docker/runtime/prestashop.php:231-233 | the patches applied from the last to the first |
| DefineFile.PatchDefineExpressions | docker/runtime/prestashop.php:186-235 | the whole update with its three refusals |
| DefineResult.OutcomeIs | docker/runtime/prestashop.php:186-235 | the update gives the text of the updated file: replaced arguments, missing defines before the first closing tag or at the end; or the first missing define where it must exist |
| DefineResult.UpdatedDefines | docker/runtime/prestashop.php:186-235 | in the updated file every managed key is defined exactly once, with its expression |
| DefineResult.UpdateAgain | docker/runtime/prestashop.php:186-235 | a second update changes nothing and finds nothing missing, even where every define must exist |
| DefineResult.UpdatedFrame | docker/runtime/prestashop.php:186-235 | all other tokens are as they were, but for the added defines |
| LegacyText.UnescapedEscaped | docker/project_translations.py:51-57 | unquoting a quoted text gives the text |
| LegacyText.BodyEndOf | docker/project_translations.py:65-72 | a quoted text ends at its own closing quote |
| LegacyText.QuotedIsRead | docker/project_translations.py:51-53 | any single-quoted text ends at its own quote, and a backslash in it counts only before a backslash or a quote |
| LegacyText.ReadIsQuoted | docker/project_translations.py:65-72 | whatever is read up to a quote is such a text |
| LegacyText.CountEscaped | docker/project_translations.py:56-57 | quoting neither adds nor hides what starts an entry |
| LegacyFile.EntryOfLine | docker/project_translations.py:65-80 | a written line is read as its entry |
| LegacyContents.EntryForms | docker/project_translations.py:68 | an entry is read with any white space between its parts and any quoted key and text |
| LegacyContents.GlobalForms | docker/project_translations.py:73 | a global statement with any white space is a declaration |
| LegacyFile.ParseLegacy | docker/project_translations.py:65-75 | the entries of a file in order, the later of two winning, or nothing when it holds more (exactly when, LegacyContents.ParsedPieces) |
| LegacyRoundTrip.CountNone | docker/project_translations.py:75 | nothing is counted in a text exactly when it does not contain the mark |
| LegacyRoundTrip.RoundTrip | docker/project_translations.py:65-80 | a written file is read back as what was written, in order, if and only if no key and no text contains what starts an entry; otherwise it is refused |
| LegacyContents.ParsedPieces | docker/project_translations.py:65-75 | entries, comments, tags, declarations, white space and other code in any order: read as the entries if and only if there is no other code and no mark in a key or text; otherwise the file is refused |
| LegacyContents.AddedBehind | docker/project_translations.py:65-80 | text added behind a written file refuses it exactly when it is not blank, where no tag, declaration or comment starts in it |
| LegacyRoundTrip.HeaderGoes | docker/project_translations.py:73-80 | of the written header nothing but line ends is left |
| TranslationApply.CountRead | docker/project_translations.py:65-75 | a text holds a mark for every entry read in it and for every mark in their keys and texts |
| TranslationApply.ParsedMarkFree | docker/project_translations.py:65-75 | what is read from a file holds nothing that starts an entry |
| TranslationApply.MergedIs | docker/project_translations.py:332-343 | after a migration its keys have its texts and every other key the text it had |
| TranslationApply.ApplyAgain | docker/project_translations.py:321-345 | applying a migration again writes nothing, if and only if no text it newly wrote looks like an entry; then the file is refused from then on |
| TranslationApply.Shop.Merge | docker/project_translations.py:332-343 | the loop over the texts: merged, written, already so, written over |
| TranslationApply.OverwrittenAre | docker/project_translations.py:334-339 | reported as written over are exactly the texts for which the file had another one |
| TranslationApply.Shop.ApplyPart | docker/project_translations.py:321-345 | one file: skipped, refused, or written when something differs and it is no dry run |
| TranslationDraft.Difference | docker/project_translations.py:198-212 | exactly the texts that are new or different from the base |
| TranslationDraft.DraftCarriesOver | docker/project_translations.py:198-212 | a draft over its base has every text of the current shop, and the base's other texts |
| TranslationDraft.DraftTaken | docker/project_translations.py:198-212 | after that nothing is left to draft |
| ReplyFrame.NumberOfDecimal | docker/remove_inside.py:96-100 | a written length is read as itself |
| ReplyFrame.FindAfter | docker/remove_inside.py:103-107 | the start line is found where it is, when none lies before |
| ReplyFrame.Unframed | docker/remove_inside.py:96-113 | a whole block is read whatever stands before and after it, when no start line stands before |
| ReplyFrame.CutShort | docker/remove_inside.py:96-113 | no block cut short gives a reply |
| PathFilters.SplitJoin | docker/project_files.py:41-42 | joining parts and splitting at slashes gives the parts |
| PathFilters.WildPlain | docker/project_files.py:190-199 | a pattern without a star matches itself alone |
| PathFilters.WildStar | docker/project_files.py:190-199 | a star stands for any text: what stands before it matches a start of the name and what stands behind it an end, apart from each other |
| PathFilters.ListedPlain | docker/project_files.py:190-199 | a pattern without a star lists its own path, or everything below it when it ends with a slash |
| PathFilters.IncludeFilters | docker/project_files.py:35-44 | the steps of every pattern included once each, then everything excluded |
| PathFilters.Listed | docker/project_files.py:190-199 | whether one of the patterns names a path |
| PathFilters.CopiedIsListed | docker/project_files.py:35-44 | under rsync's first-match rules, which descend only into directories they take, a file is copied if and only if the patterns list it |
| EnvFile.ParsedIsRead | docker/project_env_files.py:56-93 | a file of comments, blank lines and single-line entries is read line by line, the later line winning |
| EnvFile.LineSets | docker/project_bootstrap.py:44-49 | the line written for a value is read as that value |
| EnvForms.AssignmentForms | docker/project_env_files.py:18 | white space around the equals sign, or a colon for it, does not matter |
| EnvForms.ExportedForms | docker/project_env_files.py:18 | nor does export in front |
| EnvForms.CommentLeftOut | docker/project_env_files.py:88 | a comment behind a plain value is left out |
| EnvForms.DoubleQuotedSets | docker/project_env_files.py:35-46 | a double-quoted value ends at its own quote and is read as what its characters and escapes stand for |
| EnvForms.MultiLineSets | docker/project_env_files.py:75-84 | a single-quoted value goes on over the lines up to its closing quote |
| EnvForms.RefusedValues | docker/project_bootstrap.py:44-49 | a value cannot be written exactly when it holds a single quote or a line feed |
| EnvWrite.InsertLast | docker/env_layout.py:38-43 | an unknown key goes last, behind the last line that is not blank, and a blank line apart from a block that starts with a section's header |
| EnvWrite.InsertSection | docker/env_layout.py:46-53 | a missing section is created before the first later one, with a blank line on each side where the file goes on |
| EnvWrite.InsertInSection | docker/env_layout.py:54-63 | in its section a key goes after the keys that come before it, at the first such place, never past the blank line that ends the section |
| EnvWrite.Insert | docker/env_layout.py:34-63 | an insertion keeps every line that is not blank, in order, and adds the key's line and at most one header |
| EnvOrder.InsertKeepsOrder | docker/env_layout.py:54-63 | a new key leaves the keys of its section in their listed order if and only if no key that is listed nowhere stands below one that comes behind the new key |
| EnvOrder.StrayPutsLast | docker/env_layout.py:54-63 | the section of B and then an unlisted X: A, which comes first, is put last |
| EnvOrder.SectionKeepsOrder | docker/env_layout.py:46-53 | a section that is created leaves the sections of the file in their listed order |
| PythonText.SplitJoined | docker/project_env_files.py:63 | lines without a break in them are split as they were joined |
| EnvWrite.PutIsAround | docker/env_layout.py:34-63 | a new key's line, and its section's header if need be, stand at one place in the file, its other lines that are not blank above and below it in their order |
| EnvValues.ReplacedReads | docker/project_bootstrap.py:51-52 | replacing a key's lines changes what that key reads and nothing else: to the new value, unless the last line that sets the key is not one of them and keeps the last word |
| EnvValues.InsertedReads | docker/env_layout.py:34-63 | inserting a key's line changes what that key reads and nothing else: to the new value, unless a line below the place sets the key too |
| EnvValues.SetReads | docker/project_bootstrap.py:41-52 | with one value set the parser reads the old values with the new one over them if and only if the last line of the key among those that come to have a say is replaced or says the same |
| EnvValues.ExportedStays | docker/project_bootstrap.py:51-52 | a line with export in front keeps its value whatever its key is set to: the setter's line is written and not read |
| EnvValues.ExportedStaysTwo | docker/project_bootstrap.py:51-52 | setting A to 3 in a file of A=1 and then export A=2 leaves A reading 2 |
| EnvSettings.SetAllReads | docker/project_bootstrap.py:38-53 | several values set one after another: each key reads what setting its value came to |
| EnvSettings.AllReadIff | docker/project_bootstrap.py:38-53 | the parser reads the new values over the old ones if and only if each of them is taken |
| EnvSettings.AllTakenFromStart | docker/project_bootstrap.py:38-53 | where each key has a line to replace or none at all, the file before tells whether the values are taken |
| EnvSettings.TakenLater | docker/project_bootstrap.py:41-52 | where a key is set by an exported line alone the file before does not tell: setting another key first can move the place its line is put at |
| EnvSettings.WrittenStays | docker/project_bootstrap.py:41-52 | a value stays written while another is set |
| EnvSettings.SetEnvValues | docker/project_bootstrap.py:38-53 | from the text that comes out the parser reads the old values with the new ones over them if and only if each is taken, as all are whose lines are plain; setting values that are written already changes nothing; refused exactly when a value cannot be written safely |

## Left out

- Docker, Compose, git, rsync, ssh and MySQL themselves: an effect each (a set of files, a schema, an exit status, a commit).
- MigrationRuns.Server.Execute: MySQL beyond the guarded statements (data, implicit index changes when a column is dropped, constraints); a TODO is where a person takes over.
- MigrationRuns.Server.MigrateAll: the warning about files changed after they were applied, the dry run and the progress lines.
- MigrationRuns.Server.RollbackTo: the translation rows of setup_migrations, which a rollback leaves alone, are not among the records; applied_at is taken to follow the order of application.
- MigrationChain.MigrateEnds: the split of one definition into schemas (schema_tables) is taken as done; a migration changes one schema.
- MigrationTurns.MigrateHalfUndone: later migrations of the very schema that is half undone, whose statements may do anything to it.
- MigrationTurns.RollbackHalfApplied: the same for earlier migrations of the very schema that is half applied.
- DeployHistory.EveryRunKeeps: starts at the recorded copy, because the code cannot know of a copy cut short before its record; manifests are available and the protected patterns do not change between deploys.
- ProtectedPaths.DeploysKeep: patterns with two stars in a row other than at their end, which rsync reads across parts; the excludes that are no protected paths (modules that only the target has, which no release has as a directory, and setup's marker in the release); directories without files.
- DeployRemovals.Tree.Remove: a target without links (the resolution of each name), the file system's errors other than a refusal to unlink, and empty directories, which are not part of the tree.
- DeployRun.Deployer.LockedDeploy: hooks, module upgrades, migrations, caches and reloads are stages that succeed or raise.
- DeployReleases.PruneReleases: commits are told apart by their first 12 characters.
- PipelineAttempts.EveryRunKeeps: of what make deploy does between its copy and its end only its writes to the history are steps here; DeployRun has its parts. That no stage of a deploy is called health is read off its code (docker/project_deploy.py:762-858).
- PipelineRepair.KilledAndRepaired: the images' build and the checks are outcomes; a run that rolls back automatically is not cut off there.
- CronSchedule.CronNextRun: a fixed offset from UTC; daylight saving changes are not modelled. The schedule is given as its parsed items.
- Destination.Sandbox.Walk: permission errors other than a refused mkdir, and the tree changing during the walk.
- Publish.Publisher.Publish: entries are published in any order, where the code sorts them by name; modes, times and owners, and special files apart from links.
- DumpScan.DumpScanner.ReadOne: the patterns for USE, CREATE TABLE, columns and INSERT are parameters; a match is what they find in a line. Decoding of names is the identity.
- DumpTables.ScanFinds: for dumps in which a definition's first line alone creates a table and its last line alone ends a statement.
- DumpFilter.FilterDropsStatements: for dumps in which only a statement's last line ends in a semicolon, and no data line starts a CREATE, USE or INSERT.
- DefineFile.PatchDefineExpressions: works on PHP's tokens. That PHP reads the patched text as the patched tokens is taken for granted in DefineResult.UpdateAgain.
- DefineResult.OutcomeIs: for sources without a managed define or a closing tag inside a managed argument, and expressions that are bracket-balanced, without a comma outside brackets and without a define of their own.
- LegacyContents.ParsedPieces: entries and declarations stand in the form in which they are written (other white space: LegacyContents.EntryForms and LegacyContents.GlobalForms, one at a time), and other code ends at a space; code that itself starts a comment, a tag or a declaration is taken apart as those pieces.
- TranslationApply.Shop.ApplyPart: the translation table of the database, targets that are not regular files, and the report's lines.
- ReplyFrame.Unframed: JSON is an encoding that its reader inverts.
- PathFilters.CopiedIsListed: patterns whose parts have no two stars in a row, as rsync gives those another meaning than the backup's own reading; symbolic links are files.
- EnvSettings.SetEnvValues: whether the last line of the file ends in a line feed. What is read back is stated for files whose entries are of one line each, and for values, titles and lines without line breaks of any kind (a value with one other than the line feed is written, and a reader would split it).
- EnvFile.ParsedIsRead: the strict mode that refuses a dollar sign.
- Cron job lists, occurrence keys and wrapped output, HTTP health requests, CI provider interfaces, setting validation, TLS and Nginx, image transfer, prompts and printed messages: single decisions or foreign systems.
