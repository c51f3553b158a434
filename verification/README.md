# Verification of the agent-testbench command

This project models the stateful parts of the `agent-testbench` command line in Dafny and proves what they
promise: the migration engine and its history table, the revisioned catalog, the files of a restore workspace, the
flag re-orderer, the Compose scanners, and the restore executor with its health checks, attempt log, event stream
and status report. `dafny verify dfyconfig.toml` checks everything.

Code that computes a value is a function with lemmas; code that changes state step by step is a method or a class
proved equal to a function of the old state, about which the lemmas speak. What the operating system, the database,
Docker or the clock does next is a parameter (an outcome plan, a fault oracle, a schedule), so each result holds
for every behaviour of the outside world.

| files | what they model |
|---|---|
| `Text`, `Options`, `StableSort`, `Paths` | Go's string, sort and path functions |
| `Flags` | the re-ordering of flags in front of positionals |
| `MigrationProtocol`, `MigrationSystem` | one migration run as a state machine; any number of runs interleaved |
| `MigrationBatch`, `MigrationRunner` | a target's list of migrations, interrupted and resumed; the retry loops |
| `MigrationSelection`, `MigrationThrough`, `MigrationStatuses` | selecting and ordering migrations; selecting up to a version; writing statuses back |
| `Catalog`, `CaseConfig` | compare-and-swap clients and rollback; the upsert of an execution configuration |
| `FileTree`, `Workspace` | replacing one file through a temporary file, with a fault possible at every operation |
| `Projecting`, `Lifecycle`, `StoredFiles` | projecting all files, then validating them; the stored keys each command folds anew |
| `ComposeScan`, `ComposeRender`, `ComposeLines`, `ComposeText` | the two Compose scanners, renderings of service graphs, single lines, and written files |
| `Restore`, `Health`, `Attempts`, `Events`, `Status` | the restore executor |

## Findings

Where the code does less than its promise, one lemma shows an input on which it does and another one says exactly
when it keeps the promise:

- The re-orderer drops `--`, so `-- -x` is read as a flag (`Flags.TerminatorIsDropped`); every line on which it
  changes the meaning is characterised (`Flags.ReorderedParseMatchesPermutingParse`).
- Exactly-once needs scripts that take effect entirely or not at all: without that, two concurrent applies execute
  the content twice (`MigrationSystem.SafeExactlyWhenScriptsAreAtomic`).
- A migration recorded with a checksum other than 64 hex digits is not recognised by a rerun, which then fails
  (`MigrationBatch.UnseenChecksumIsNotFound`, `MigrationBatch.RerunFindsEverythingRecorded`).
- `--through` selects no prefix if it skips a migration that stands before a selected one. Version `alpha`, which
  gets order 0 when it is added, is skipped on the way to version `1` (`MigrationThrough.ZeroOrderBreaksThePrefix`);
  with an edge given, the pairs of orders and versions that do this are `MigrationThrough.EdgePrefixExactly`. Among
  them are migrations of order 0 under a version without digits. Most orders of 0 do no harm.
- A commit whose reply is lost is reported as a failure but has left its revision (`Catalog.LostReplyLeavesARevision`,
  `Catalog.UnreportedExactly`); without lost replies none has (`Catalog.FailureMeansNothingCommitted`).
- The two checks of workspace paths trim a different number of times and differ on paths such as `./ /b`
  (`Paths.ChecksCanDiffer`, `Paths.SecondCheckIsTheFirstAndBelow`).
- For the same reason the environment file of a workspace named `./ a`, or `/x / /` once made absolute, is written
  into another directory than all other files (`Lifecycle.BlankNameIsNotHome`, `Lifecycle.AbsoluteNameIsNotHome`), and
  the validator refuses what was prepared (`Lifecycle.ForeignEnvironmentIsRefused`);
  `Workspace.CleanedWorkspaceIsTheSameExactly` tells which names do this.
- Files stored under two keys that clean to one path, such as `./a` and `a`, are folded in the random order of a map by
  each command anew, so that the validator can refuse what was just prepared (`StoredFiles.AmbiguousKeyIsRefused`);
  it accepts it in every order exactly if no such keys differ (`StoredFiles.EveryFoldIsAcceptedExactly`).
- Two generated paths of one file, such as those of `./ a` (listed) and `a`, or one at `.agent-testbench/restore.env`,
  make the validator refuse what was just prepared in any order, unless they write the same
  (`StoredFiles.PaddedNameIsRefused`, `Lifecycle.TwoPathsToOneFile`, `Lifecycle.ValidatingWhatWasPrepared`).
- A file stored under `./ a` alone and not listed in the order is lost: an empty file is written in its place and
  accepted (`StoredFiles.LostFileIsAccepted`, `StoredFiles.EveryFileLandsExactly`).
- A dependency called `depends_on` hides the ones after it, and a `depends_on` line deeper than the service's keys shows
  dependencies that no service has (`ComposeRender.JobBehindDependsOnIsMissed`, `ComposeRender.BuriedJobIsFound`,
  `ComposeRender.CompletedDependenciesExactly`).
- A nested line that reads `build:` makes a service look built (`ComposeRender.DependencyCalledBuild`,
  `ComposeRender.BuildsExactly`).
- The verdict on a replicated job depends on the order in which Docker lists the replicas
  (`Status.FirstListedDecides`, `Status.ExpectationOrderExactly`).
- A refused summary leaves a gap in the stored attempts (`Attempts.RefusedSummaryLeavesAGap`,
  `Attempts.StoredAreTheLastExactly`).
- A configuration is not selected after its upsert if its stored status is not exactly `active` (`Active` passes the
  validation), or if the id made from the case's name belongs to another case (`CaseConfig.InactiveIsNotSelected`,
  `CaseConfig.OtherScopeIsNotSelected`, `CaseConfig.UpsertClosesSelection`).

The catalog's history is serial for every digest that tells contents apart, and for no other
(`Catalog.SerialExactlyWhenDigestsDiffer`); the code uses SHA-256, of which no collision is known.

## Model

| member | source | states |
|---|---|---|
| Flags.InterspersedFlagArgs | cmd/agent-testbench/flags.go:14-37 | the index loop puts flag tokens and their values first, positionals after, both in their order |
| Flags.TokenNamesAgree | cmd/agent-testbench/flags.go:39-56 | the name the re-orderer sees in a token, and whether it holds a value, is what the flag parser sees |
| Flags.AttachedValueMeans | cmd/agent-testbench/flags.go:39-56 | a token with `=`, with one dash or two, assigns the rest of it to its flag if that is known and accepts it, and is rejected otherwise |
| Flags.TokenAloneMeans | cmd/agent-testbench/flags.go:39-56 | a token without `=` sets a flag that needs no value to true, gives any other the next argument, and is rejected without one |
| Flags.ReorderedParseMatchesPermutingParse | cmd/agent-testbench/flags.go:10-37 | for every argument list, parsing the re-ordered line equals permuting parsing (assignments, positionals, rejection) if and only if the line is not one of the two traps |
| Flags.AcceptedLinesSurviveReordering | cmd/agent-testbench/flags.go:10-37 | every line without `--` that a permuting parser accepts is accepted with the same flags and positionals in the same order |
| Flags.TerminatorIsDropped | cmd/agent-testbench/flags.go:18-23 | after `--` is dropped, `-x` is no longer read as a positional |
| MigrationProtocol.ChecksumFromOutput | cmd/agent-testbench/environment_migration_mysql.go:108-140 | the loop returns the first line that is 64 hex digits after trimming |
| MigrationProtocol.FirstChecksumExactly | cmd/agent-testbench/environment_migration_mysql.go:108-140 | what is read is the first line that, trimmed, is 64 of the characters 0-9, a-f and A-F; nothing if there is none |
| MigrationProtocol.RecordedChecksumIsRead | cmd/agent-testbench/environment_migration_mysql.go:108-162 | reading the client's output finds the recorded checksum exactly if it is 64 hex digits |
| MigrationProtocol.RepeatedExactly | cmd/agent-testbench/environment_migration_mysql.go:79-106 | a command that failed is sent again exactly if its error can be retried, nobody gave up and it was not the 60th attempt; otherwise it is cancelled or fails |
| MigrationProtocol.SucceededMovesOn | cmd/agent-testbench/environment_migration_mysql.go:30-77 | a command that succeeded is never repeated: the run goes on to another phase with a first attempt |
| MigrationSystem.EveryInterleavingIsExactlyOnce | cmd/agent-testbench/environment_migration_mysql.go:30-77 | in every interleaving of apply and baseline runs, each key has at most one row, rows never change, and content was executed once for applied keys and never for baselined ones |
| MigrationSystem.AtMostOneWinner | cmd/agent-testbench/environment_migration_mysql.go:164-210 | at most one run reports that it applied or baselined a key |
| MigrationSystem.FailureMeansNoEffect | cmd/agent-testbench/environment_migration_mysql.go:30-77 | if no reply is lost, whatever is in the history was put there by a run that reports success |
| MigrationSystem.TurnsAreCounted | cmd/agent-testbench/environment_migration_mysql.go:79-106 | an unfinished run has counted exactly its turns as attempts |
| MigrationSystem.RetryableFailureIsRepeated | cmd/agent-testbench/environment_migration_mysql.go:79-106 | in every interleaving a failed command is repeated under just that condition, with one attempt more, and no other run moves |
| MigrationSystem.EveryRunFinishes | cmd/agent-testbench/environment_migration_mysql.go:79-106 | a run that gets enough turns finishes, within 60 attempts for each of its commands |
| MigrationSystem.SafeExactlyWhenScriptsAreAtomic | cmd/agent-testbench/environment_migration_mysql.go:58-77 | all of this holds if and only if a submitted script takes effect entirely or not at all |
| MigrationBatch.PerformExactly | cmd/agent-testbench/environment_migration_mysql.go:30-77 | what becomes of an item, and what it leaves, told by what is recorded under its key and what the server answers to its preconditions |
| MigrationBatch.AnsweredRunPerforms | cmd/agent-testbench/environment_migration_mysql.go:30-77 | a run whose commands are all answered ends after at most three commands and one for each precondition with exactly that effect and result |
| MigrationBatch.DriveTracks | cmd/agent-testbench/environment_migration_mysql.go:30-77 | a run that is retried and cut off anywhere has either no effect or exactly that of the undisturbed run |
| MigrationBatch.InterruptedHoldsAPrefix | cmd/agent-testbench/environment_migration_target_commands.go:208-239 | a batch that fails at an item leaves exactly the effects of the items before it, and possibly its own if the reply was lost |
| MigrationBatch.ResumeEqualsUninterrupted | cmd/agent-testbench/environment_migration_target_commands.go:208-239 | after any number of interrupted attempts, running the batch ends in the state of one uninterrupted run |
| MigrationBatch.CompletedRunIsTheBatch | cmd/agent-testbench/environment_migration_target_commands.go:208-239 | a run in which every item got through, however often it retried, leaves the data and reports the phases of an undisturbed one |
| MigrationBatch.LastAttemptEqualsUninterrupted | cmd/agent-testbench/environment_migration_target_commands.go:208-239 | after any interrupted attempts, a last one that gets through with retries of its own ends where one uninterrupted run would have |
| MigrationBatch.SuccessHoldsAll | cmd/agent-testbench/environment_migration_target_commands.go:208-239 | a successful batch leaves the effects of all its items |
| MigrationBatch.RerunFindsEverythingRecorded | cmd/agent-testbench/environment_migration_target_commands.go:208-239 | a further run changes nothing and reports every item as already recorded, if and only if all checksums are 64 hex digits |
| MigrationBatch.RealRerunFindsEverythingRecorded | cmd/agent-testbench/environment_migration_target_commands.go:208-239 | the same for two real runs with retries: the second finds everything recorded and changes nothing if and only if all checksums are 64 hex digits |
| MigrationBatch.UnseenChecksumIsNotFound | cmd/agent-testbench/environment_migration_mysql.go:108-162 | a migration that is recorded with any other checksum is not recognised, and applying it again fails |
| MigrationRunner.Session.SendWithRetry | cmd/agent-testbench/environment_migration_mysql.go:79-106 | the retry loop follows the state machine with at most 60 attempts: all but the last could be retried and were not cancelled; it fails for good only on an error that cannot be retried or after 60, and as cancelled only before |
| MigrationRunner.Session.RunWithHistory | cmd/agent-testbench/environment_migration_mysql.go:30-77 | the calls ensure, query, preconditions, script end as the state machine ends, with the total of their attempts |
| MigrationRunner.Session.ExecuteTarget | cmd/agent-testbench/environment_migration_target_commands.go:208-239 | the loop fills the report in place as far as it gets, stops at the first failure and leaves the rest of the report alone |
| StableSort.SortIsTheStableSort | cmd/agent-testbench/environment_migration_model.go:90-97 | the only sorted arrangement that keeps equivalent elements in order is the one computed |
| StableSort.FilterIsPrefixExactly | cmd/agent-testbench/environment_migration_model.go:61-114 | a filtered list is a prefix of the list exactly if what it keeps stands in front |
| MigrationSelection.OrderIsTotal | cmd/agent-testbench/environment_migration_model.go:100-114 | the comparison of migrations can be sorted by |
| MigrationSelection.IndexAssets | cmd/agent-testbench/environment_migration_model.go:61-98 | the asset map holds, for every key, the last asset with a version |
| MigrationSelection.EnvironmentMigrationItems | cmd/agent-testbench/environment_migration_model.go:61-98 | the loops and the sort compute the ordered selection of the referenced migrations |
| MigrationSelection.SelectedExactly | cmd/agent-testbench/environment_migration_model.go:61-139 | selected are exactly the migrations of assets that a dependency refers to, on the edge and for the database if given, up to the version; of several assets with one key the last with a version counts |
| MigrationSelection.SelectionIsOrdered | cmd/agent-testbench/environment_migration_model.go:100-114 | a selection is ordered by provider, owner, apply order and version, in this order of precedence |
| MigrationSelection.MigrationOfItsAsset | cmd/agent-testbench/environment_migration_model.go:116-150 | a migration has its asset's fields, and its recorded checksum unless that is blank |
| MigrationSelection.ThroughVersionFilters | cmd/agent-testbench/environment_migration_model.go:61-114 | selecting up to a version equals filtering the full ordered selection, and is sorted |
| MigrationThrough.ThroughVersionIsPrefixExactly | cmd/agent-testbench/environment_migration_model.go:61-114 | for every graph, edge filter, database and version, the selection up to the version is a prefix of the full one if and only if no migration beyond the version stands before one that is not beyond it |
| MigrationThrough.EdgePrefixExactly | cmd/agent-testbench/environment_migration_model.go:291-305 | with an edge given, if and only if no two migrations have the orders and versions of a listed kind of pair |
| MigrationThrough.ThroughVersionIsPrefix | cmd/agent-testbench/environment_migration_model.go:291-305 | so it is a prefix when no order and not the number of the version is zero |
| MigrationThrough.ZeroOrderBreaksThePrefix | cmd/agent-testbench/environment_migration_commands.go:185-187 | a graph with versions `alpha` and `1` and the orders that adding them gives: up to `1` is not a prefix |
| MigrationStatuses.CollectStatuses | cmd/agent-testbench/environment_migration_target_commands.go:284-323 | the statuses to write are those of the migrations reported complete |
| MigrationStatuses.PersistStatuses | cmd/agent-testbench/environment_migration_target_commands.go:284-323 | the in-place loop changes the status of exactly those assets and tells whether any was changed |
| MigrationStatuses.WriteBackOnlyRelabels | cmd/agent-testbench/environment_migration_target_commands.go:284-323 | after the write-back every selection is the one before, with only the written statuses changed |
| MigrationStatuses.NothingPendingAfterSuccess | cmd/agent-testbench/environment_migration_model.go:161-179 | nothing is pending afterwards if and only if each selected migration was reported complete or was complete before |
| MigrationStatuses.NothingPendingExactly | cmd/agent-testbench/environment_migration_target_commands.go:208-323 | after a run of the selection, finished or not, nothing of it is pending if and only if each migration was done by the run or complete before |
| MigrationStatuses.CompletedRunLeavesNothingPending | cmd/agent-testbench/environment_migration_target_commands.go:208-323 | a run that gets through, with whatever retries, leaves nothing pending in its selection |
| Catalog.EveryInterleavingIsSerial | cmd/agent-testbench/catalog_mutation.go:30-100 | in every interleaving of edits and rollbacks, revisions are 1, 2, 3, ..., history only grows, and it is what the committing commands leave one after the other |
| Catalog.ReportedCommitsAreReal | cmd/agent-testbench/catalog_mutation.go:68-89 | no lost update: a reported commit is its client's edit of exactly the content it loaded, or that content already, and what it loaded is the revision the caller expected, if any |
| Catalog.StoppedClientsLeaveNothing | cmd/agent-testbench/catalog_mutation.go:68-89 | a revision is a client's if and only if that client committed it there: a rejected client has left none, no client leaves two |
| Catalog.FailureMeansNothingCommitted | cmd/agent-testbench/catalog_mutation.go:68-89 | as long as no reply of the database is lost, every revision was reported as committed by its client |
| Catalog.LostReplyLeavesARevision | internal/store/sqlstore/store_catalog_versions.go:46-155 | one lost reply is enough for a failure to be reported whose revision is there |
| Catalog.UnreportedExactly | internal/store/sqlstore/store_catalog_versions.go:46-155 | a commit leaves a revision without being reported if and only if its reply is lost, no other revision came in between, and its digest differs from the head's |
| Catalog.ConflictsAreGenuine | internal/store/sqlstore/store_catalog_versions.go:46-82 | a commit is refused if and only if another revision came in between |
| Catalog.LoneRollbackExactly | cmd/agent-testbench/case_catalog_history_commands.go:132-169 | a rollback on its own appends the content of its revision, as the next one, if and only if that is recorded and differs from the newest; it is not found exactly if it is not recorded, and equal exactly if it does not differ |
| Catalog.LoneEditExactly | cmd/agent-testbench/catalog_mutation.go:68-89 | an edit on its own appends its content exactly if the validation accepts it and it differs from the newest revision, and is reported whenever it is accepted |
| Catalog.UnexpectedIsRefused | cmd/agent-testbench/catalog_mutation.go:91-100 | a client that expects another revision than the newest stops with that conflict and changes nothing |
| Catalog.SwapIsSound | internal/store/sqlstore/store_catalog_versions.go:46-155 | a successful compare-and-swap appends the next revision, or finds the same content recorded |
| Catalog.ClientStep | cmd/agent-testbench/case_catalog_history_commands.go:132-169 | a client that stops in a step leaves the store as it was |
| Catalog.CollisionSwallowsAnEdit | internal/store/sqlstore/store_catalog_versions.go:133-155 | two contents with one digest suffice for a history that is not serial: a changed catalog is reported committed without a revision |
| Catalog.SerialExactlyWhenDigestsDiffer | internal/store/sqlstore/store_catalog_versions.go:46-155 | every interleaving of any clients is serial if and only if no two contents have the same digest |
| CaseConfig.MergeExecution | cmd/agent-testbench/case_config_commands.go:373-412 | the key-by-key edits lay targets, headers and patched fields over the document |
| CaseConfig.PatchArrives | cmd/agent-testbench/case_config_commands.go:373-421 | field by field, the merged document holds what the patch gives under the field's own key, headers key by key, and otherwise what was stored; it fails exactly if the stored one cannot be decoded |
| CaseConfig.DefaultsExactly | cmd/agent-testbench/case_config_commands.go:686-702 | the defaults are the case's node and the first method and path that a node under its id has, or GET and `/` |
| CaseConfig.UnpatchedFieldsStay | cmd/agent-testbench/case_config_commands.go:373-421 | a field the patch does not mention is what it was |
| CaseConfig.UnpatchedTargetsStay | cmd/agent-testbench/case_config_commands.go:381-383 | a method, node or path the patch leaves blank is what it was, unless that was blank too |
| CaseConfig.MergeTwice | cmd/agent-testbench/case_config_commands.go:373-421 | merging the same patch twice is merging it once |
| CaseConfig.MergedIsSelectable | cmd/agent-testbench/case_config_commands.go:632-650 | a merged document names its case and a request target |
| CaseConfig.FirstMatching | cmd/agent-testbench/case_config_commands.go:567-605 | the selection loop returns the id of the first configuration that matches |
| CaseConfig.SelectedIsInUse | cmd/agent-testbench/case_config_commands.go:567-664 | what the runner selects is for the case and in use, for the requested step or for the case as a whole; it selects nothing only if there is no such configuration |
| CaseConfig.UpsertTemplateConfig | cmd/agent-testbench/case_config_commands.go:666-674 | the first configuration with the id is replaced, or the new one is appended |
| CaseConfig.FirstIDAfterUpsert | cmd/agent-testbench/case_config_commands.go:567-674 | after replacing the selected configuration, or adding one where none was selected, the written one is selected exactly if it matches |
| CaseConfig.PrepareTarget | cmd/agent-testbench/case_config_commands.go:296-328 | which configuration is edited, and its id, scope and status |
| CaseConfig.UpsertConfig | cmd/agent-testbench/case_config_commands.go:176-234 | the whole upsert up to the commit, with its refusals, and whether the runner selects what was written |
| CaseConfig.UpsertWritesThePatch | cmd/agent-testbench/case_config_commands.go:176-328 | under its id stands the configuration with the place, the status and the patched document it should have, and no other configuration changes |
| CaseConfig.UpsertEditsTheCase | cmd/agent-testbench/case_config_commands.go:176-339 | the case has the given overrides over its own and its status normalised; no other case, node or binding changes |
| CaseConfig.RefusedExactly | cmd/agent-testbench/case_config_commands.go:176-234 | an upsert is refused if and only if the case is missing, the first binding of the step is not to it, the stored document cannot be decoded, its status is unknown or it is not valid |
| CaseConfig.UpsertClosesSelection | cmd/agent-testbench/case_config_commands.go:296-605 | without an explicit id the runner selects what was written if and only if the resulting status is active and the id is not another case's; all other configurations stay, one is added exactly if none had the id |
| CaseConfig.SecondUpsertChangesNothing | cmd/agent-testbench/case_config_commands.go:176-234 | a second identical upsert writes the same catalog, creates nothing and changes nothing |
| CaseConfig.EditIsSelectedAndStays | cmd/agent-testbench/case_config_commands.go:176-605 | with Go's TrimSpace and the merge as it is done: selected if and only if the condition held before, and then a second upsert changes nothing |
| CaseConfig.InactiveIsNotSelected | cmd/agent-testbench/case_config_commands.go:567-605 | a valid upsert that writes another status than active, such as `Active`, or any for a case that is no longer active, is not selected |
| CaseConfig.OtherScopeIsNotSelected | cmd/agent-testbench/case_config_commands.go:296-328 | nor is one, just as valid, found under the id made from the case's name and scoped to another case |
| CaseConfig.WrittenForOneCase | internal/domain/casemaintenance/validation.go:114-221 | the validation lets such an upsert pass if its node is there and, for an active case, the configuration counts as active |
| Paths.CleanIsIdempotent | cmd/agent-testbench/environment_restore_docker_generated_files.go:61-105 | cleaning a cleaned path changes nothing, so that writer and validator use the same keys |
| Paths.NamesAreKept | cmd/agent-testbench/environment_restore_workspace_fs.go:150-160 | cleaning keeps names in order and drops empty elements and `.` |
| Paths.ParentsAreResolved | cmd/agent-testbench/environment_restore_workspace_fs.go:150-160 | `..` takes the name before it away, is dropped at the root, and stays at the start of a relative path |
| Paths.AcceptedPathsStayInside | cmd/agent-testbench/environment_restore_workspace_fs.go:150-160 | a path is accepted if and only if it is relative and still names something below once every `..` is resolved |
| Paths.RelFindsWhatIsBelow | cmd/agent-testbench/environment_restore_docker_generated_files.go:119-123 | the comparison by relative path lets through exactly the targets strictly below the workspace |
| Paths.SecondCheckIsTheFirstAndBelow | cmd/agent-testbench/environment_restore_docker_generated_files.go:107-125 | the second check accepts what the first accepts and what, trimmed again, lands below the workspace |
| Paths.ChecksAgreeOnTrimmedPaths | cmd/agent-testbench/environment_restore_docker_generated_files.go:107-125 | where cleaning leaves no white space at the ends, both checks accept the same paths, and the target is the path's elements below the workspace |
| Paths.ChecksCanDiffer | cmd/agent-testbench/environment_restore_startup_assets.go:223-229 | elsewhere a path the writer accepts can be refused by the other check |
| Paths.CleanedAgainExactly | cmd/agent-testbench/environment_restore_docker_generated_files.go:131-142 | trimming and cleaning once more changes nothing if and only if the cleaned path has no white space at its ends |
| FileTree.ReplacedElsewhere | cmd/agent-testbench/environment_restore_workspace_fs.go:30-66 | replacing a file leaves every other file as it was and adds only directories above it |
| Workspace.Root.OpenRoot | cmd/agent-testbench/environment_restore_workspace_fs.go:126-148 | the workspace opens only with a name and as a real directory; at most the directory itself is created |
| Workspace.Root.RejectSymlinks | cmd/agent-testbench/environment_restore_workspace_fs.go:162-181 | the loop lets a path through exactly if only directories lead to it and it is no link |
| Workspace.Root.CreateTemp | cmd/agent-testbench/environment_restore_workspace_fs.go:75-91 | a temporary file is new, empty, beside the target and never the target itself; names are only exhausted if the next 100 were all taken |
| Workspace.TempIsNotTheTarget | cmd/agent-testbench/environment_restore_workspace_fs.go:75-91 | no temporary name is the name of the target |
| Workspace.Renamed | cmd/agent-testbench/environment_restore_workspace_fs.go:60-65 | renaming the finished temporary file gives exactly the tree with the target replaced |
| Workspace.Root.WriteFile | cmd/agent-testbench/environment_restore_workspace_fs.go:14-73 | at every step the target is old or completely new and no other file has changed; an error other than closing leaves the old one; success replaces exactly the target; an undisturbed write succeeds whenever the target can be replaced, unless the next 100 temporary names were all taken |
| Workspace.Root.ReadFile | cmd/agent-testbench/environment_restore_workspace_fs.go:98-124 | a read changes nothing and returns what the tree holds there, or fails |
| Workspace.TargetOfAccepted | cmd/agent-testbench/environment_restore_workspace_fs.go:150-160 | accepted paths point to the elements of their cleaned form, none of them `..` |
| Workspace.CleanedWorkspaceIsTheSameExactly | cmd/agent-testbench/environment_restore_docker_generated_files.go:131-142 | the cleaned name of a workspace opens the same directory if and only if it has no white space at its ends; paths below it are the same in any case |
| Projecting.OtherWritesDoNotDisturb | cmd/agent-testbench/environment_restore_docker_generated_files.go:31-57 | later writes never disturb what an earlier one wrote, nor any file they do not write |
| Projecting.LastWriteDecides | cmd/agent-testbench/environment_restore_docker_generated_files.go:31-57 | the last write to a file decides what it holds |
| Projecting.EveryWriteSurvivesExactly | cmd/agent-testbench/environment_restore_docker_generated_files.go:31-57 | all files hold what was written if and only if no two writes to one file differ |
| Projecting.LeavesExactly | cmd/agent-testbench/environment_restore_docker_generated_files.go:31-57 | a file holds something in the end if and only if the last write to it wrote that, or there was none and it held it before |
| Lifecycle.GeneratedFilePaths | cmd/agent-testbench/environment_restore_docker_generated_files.go:80-105 | the loops list the ordered files once each, then the remaining ones sorted |
| Lifecycle.GeneratedPathsMembers | cmd/agent-testbench/environment_restore_docker_generated_files.go:80-105 | the listed paths are the ordered ones that exist and the keys cleaned once more, whatever the order of the map |
| Lifecycle.ListedPathsKeepOrder | cmd/agent-testbench/environment_restore_docker_generated_files.go:80-105 | the listed files come first, each once and in the listed order |
| Lifecycle.OtherPathsAreSorted | cmd/agent-testbench/environment_restore_docker_generated_files.go:80-105 | the others follow, sorted |
| Lifecycle.GeneratedPathsAreClean | cmd/agent-testbench/environment_lifecycle_commands.go:126-134 | looking a mode up by the path and by the cleaned path is the same |
| Lifecycle.PrepareGeneratedFiles | cmd/agent-testbench/environment_restore_docker_generated_files.go:23-59 | one report for each path; if all are good, all files were written in order; planning changes nothing |
| Lifecycle.PrepareBy | cmd/agent-testbench/environment_lifecycle_commands.go:105-121 | success means that all generated files were written, and then the environment file: in the same directory exactly if the cleaned name opens it |
| Lifecycle.Validate | cmd/agent-testbench/environment_lifecycle_commands.go:123-171 | validation changes nothing and, undisturbed, succeeds exactly if every file has its content and mode and every referred file is regular |
| Lifecycle.ValidatingAnother | cmd/agent-testbench/environment_lifecycle_commands.go:105-157 | after one projection was prepared, the validator accepts another one of the same paths if and only if the last write to each of its files, or the old tree, has its content and mode, and the referred files are there |
| Lifecycle.ValidatingWhatWasPrepared | cmd/agent-testbench/environment_lifecycle_commands.go:105-157 | after a successful preparation the validator accepts if and only if the workspace has a name, no two writes to one file differ, every referred file is written or was there, and the environment file is in this directory, where its cleaned name opens it or it was there already |
| Lifecycle.PreparedReadsBack | cmd/agent-testbench/environment_restore_docker_generated_files.go:23-78 | after a preparation whose writes agree, every path reads as its recorded content, with its recorded mode or 0644 |
| Lifecycle.EnvironmentReadsBack | cmd/agent-testbench/environment_restore_docker_generated_files.go:131-142 | and restore.env as its text with mode 0600, whatever generated file goes there |
| Lifecycle.DistinctFilesAreAccepted | cmd/agent-testbench/environment_lifecycle_commands.go:105-157 | it accepts whenever all referred files are generated, no two at the same place and none at restore.env |
| Lifecycle.TwoPathsToOneFile | cmd/agent-testbench/environment_lifecycle_commands.go:105-157 | two listed paths of one file with different contents make it refuse what was just prepared |
| Lifecycle.ForeignEnvironmentIsRefused | cmd/agent-testbench/environment_restore_docker_generated_files.go:131-142 | so does a workspace whose cleaned name opens another directory, unless the environment file was there already |
| Lifecycle.BlankNameIsNotHome | cmd/agent-testbench/environment_migration_target_commands.go:160-171 | a workspace such as `./ a` is one, with any blanks and any proper name |
| Lifecycle.AbsoluteNameIsNotHome | cmd/agent-testbench/environment_restore.go:271-275 | so is an absolute one such as `/x / `, which naming it `/x / /` gives |
| StoredFiles.FoldContents | cmd/agent-testbench/environment_restore_text_helpers.go:66-91 | the loop folds the stored entries to cleaned paths, later ones over earlier ones |
| StoredFiles.FoldedMembers | cmd/agent-testbench/environment_restore_text_helpers.go:66-91 | a path is there exactly if some key cleans to it, and holds what one of these keys held |
| StoredFiles.EveryFoldIsAcceptedExactly | cmd/agent-testbench/environment_lifecycle_commands.go:105-157 | after a preparation the validator accepts every order of folding if and only if the prepared projection is sound and no two keys that clean to one of its paths differ |
| StoredFiles.PrepareThenValidate | cmd/agent-testbench/environment_lifecycle_commands.go:105-157 | the two commands one after the other, each with its own fold and its own order of keys: accepted exactly if the second fold renews the first, which for unambiguous keys means that the first is sound |
| StoredFiles.AmbiguousKeyIsRefused | cmd/agent-testbench/environment_restore_text_helpers.go:66-91 | two keys of one file with different contents: if one order of folding is accepted, the other is refused |
| StoredFiles.PaddedNameIsRefused | cmd/agent-testbench/environment_restore_docker_generated_files.go:80-105 | files stored under `./ a` and `a`, the first one listed, go to one place and are refused |
| StoredFiles.EveryFileLandsExactly | cmd/agent-testbench/environment_restore_docker_generated_files.go:23-105 | every file of an accepted projection is in the tree if and only if each one that is none of the paths is left there by another write or from before |
| StoredFiles.TrimmedOrListedLand | cmd/agent-testbench/environment_restore_docker_generated_files.go:80-105 | all files are, if every cleaned path is listed or has no white space at its ends |
| StoredFiles.LostFileIsAccepted | cmd/agent-testbench/environment_restore_docker_generated_files.go:80-105 | a file stored under `./ a` and not listed is replaced by an empty one and accepted |
| ComposeScan.Scanner.CompletedDependency | cmd/agent-testbench/environment_restore_health.go:280-344 | the line-by-line method moves its fields as the scanner's step function says |
| ComposeScan.CompletedServices | cmd/agent-testbench/environment_restore_health.go:257-267 | the loop collects what the steps find |
| ComposeScan.BuildServices | cmd/agent-testbench/environment_restore_docker_plan.go:531-573 | the loop, with its early end, computes the known and the built services of all lines |
| ComposeRender.CompletedDependenciesOfARendering | cmd/agent-testbench/environment_restore_health.go:257-371 | on every plain rendering at any consistent indents, with dependencies as mappings or lists and `depends_on` lines at any depth, exactly the awaited dependencies in plain sight are found |
| ComposeRender.ConditionNeedsItsName | cmd/agent-testbench/environment_restore_health.go:345-371 | after an item of a list or a dependency on one line, a condition belongs to nothing |
| ComposeRender.CompletedDependenciesExactly | cmd/agent-testbench/environment_restore_health.go:257-371 | these are the awaited dependencies if and only if each one behind a dependency called `depends_on` is also seen elsewhere and each one below a `depends_on` line of another key is also awaited |
| ComposeRender.JobBehindDependsOnIsMissed | cmd/agent-testbench/environment_restore_health.go:257-371 | a job awaited after a dependency called `depends_on` is not found |
| ComposeRender.BuriedJobIsFound | cmd/agent-testbench/environment_restore_health.go:257-371 | a job below a `depends_on` line that stands deeper than the keys of the service is found although nobody awaits it |
| ComposeRender.BuildsOfARendering | cmd/agent-testbench/environment_restore_docker_plan.go:531-573 | on every rendering whose services are indented: exactly the service names, and the services with a line that reads as a build key |
| ComposeRender.BuildsExactly | cmd/agent-testbench/environment_restore_docker_plan.go:531-573 | these are the services with a build key at the indent of their first key if and only if no other has a deeper line that reads as one |
| ComposeRender.DependencyCalledBuild | cmd/agent-testbench/environment_restore_docker_plan.go:531-573 | a service that depends on one called build counts as built |
| ComposeLines.CompletedDependencyServices | cmd/agent-testbench/environment_restore_health.go:257-267 | the loop over the text lines skips blank lines and comments |
| ComposeLines.NameLine | cmd/agent-testbench/environment_restore_health.go:331-344 | a plain name with a colon, at any indent, reads as that key |
| ComposeLines.DashLine | cmd/agent-testbench/environment_restore_health.go:331-334 | a line that starts with a dash reads as an item of a list |
| ComposeLines.QuotedNameLine | cmd/agent-testbench/environment_restore_health.go:331-344 | a quoted name reads as the name itself; as written, the key keeps its quotes |
| ComposeLines.ConditionLine | cmd/agent-testbench/environment_restore_health.go:363-371 | a condition line reads as that condition |
| ComposeLines.QuotedConditionLine | cmd/agent-testbench/environment_restore_health.go:363-371 | a quoted condition reads as that condition |
| ComposeLines.CommentedScalar | cmd/agent-testbench/environment_restore_health.go:373-391 | a comment behind a value is not part of it |
| ComposeLines.OneLineLine | cmd/agent-testbench/environment_restore_health.go:373-391 | a dependency with its condition in braces on one line reads as both |
| ComposeLines.FirstConditionCounts | cmd/agent-testbench/environment_restore_health.go:373-391 | of several fields in braces the first one called condition counts |
| ComposeLines.BuildLine | cmd/agent-testbench/environment_restore_docker_plan.go:568-570 | `build: .`, with any value, reads as a build key |
| ComposeLines.CommentsAreSkipped | cmd/agent-testbench/environment_restore_health.go:281-284 | blank lines and comments make no difference, wherever they stand |
| ComposeText.LinesReadBack | cmd/agent-testbench/environment_restore_health.go:257-371 | the significant lines of every written document are the rows of the rendering it means, in order |
| ComposeText.WrittenConditionAwaits | cmd/agent-testbench/environment_restore_health.go:363-371 | a dependency with its condition on a line of its own, as it is written, awaits completion exactly if the condition says so |
| ComposeText.WrittenBuildIsFound | cmd/agent-testbench/environment_restore_docker_plan.go:531-573 | a service written with such a line among its keys is built, by a key of its own |
| ComposeText.ScanOfText | cmd/agent-testbench/environment_restore_health.go:257-371 | writing any plain document, splitting the text and scanning it returns exactly its awaited dependencies in plain sight, its services and its built services |
| Health.Clock.WaitForProbe | cmd/agent-testbench/environment_restore_docker_health.go:87-153 | a URL or TCP check ends within its time plus 2.25 s after at most time/250 ms + 2 probes; it is good exactly if its last probe was ready, broken exactly if that failed, and all earlier ones were not ready |
| Health.Clock.WaitForCommand | cmd/agent-testbench/environment_restore_docker_health.go:259-311 | a command check ends within its time plus the 2 s that a cancelled command is waited for; it is good exactly if its last run was ready and not cut off, and no earlier one was |
| Health.Clock.WaitForAll | cmd/agent-testbench/environment_restore_docker_health.go:17-63 | all checks together end within the timeout plus 2.25 s; one the deadline overtakes is not probed; every configured check has its report, in order, with the verdict its own probes gave |
| Status.Parse | cmd/agent-testbench/environment_status_commands.go:327-391 | the map holds one replica for each named service, as the fold over its replicas says |
| Status.KeptIsACandidate | cmd/agent-testbench/environment_status_commands.go:360-403 | the one kept is of the lowest rank: not one-off before one-off, not healthy before healthy |
| Status.OneOffsAreLast | cmd/agent-testbench/environment_status_commands.go:392-403 | a one-off container never speaks for a service that has another one |
| Status.VerdictExactly | cmd/agent-testbench/environment_status_commands.go:298-325 | a job has succeeded exactly if it exited with code 0; a service that needs a probe is only healthy if it has one |
| Status.HealthyExactlyIfAllAre | cmd/agent-testbench/environment_status_commands.go:360-403 | a service is healthy if and only if all its replicas that are not one-off are (or all one-off ones), for every order of the list |
| Status.UnhealthyShows | cmd/agent-testbench/environment_status_commands.go:360-403 | a service with a replica that counts and is not running, or whose health is neither empty nor healthy, is not healthy |
| Status.RunningIsHealthy | cmd/agent-testbench/environment_status_commands.go:360-403 | one whose replicas that count all run, without a health check or healthy by it, is |
| Status.OrderIndependentExactly | cmd/agent-testbench/environment_status_commands.go:327-403 | any verdict is independent of the order if and only if it is the same on all candidates |
| Status.ExpectationOrderExactly | cmd/agent-testbench/environment_status_commands.go:298-325 | when the verdicts after expectation and probe requirement are independent of the order |
| Status.FirstListedDecides | cmd/agent-testbench/environment_status_commands.go:298-316 | of two replicas of a job, one failed, the first one listed decides |
| Restore.Docker.RunAll | cmd/agent-testbench/environment_restore_docker_plan.go:243-315 | a command loop runs up to and including the first command that does not pass |
| Restore.Docker.RunCleanup | cmd/agent-testbench/environment_restore_docker_plan.go:243-276 | cleanup runs nothing unless it is requested, allowed and linked, and is refused if requested otherwise |
| Restore.PlanListsExactly | cmd/agent-testbench/environment_restore_docker_plan.go:99-136 | the plan requires exactly the listed commands: ps, images, config, down, rm, pull, build and up, each under its own condition on what is recorded and the options |
| Restore.OnlyCleanupRemoves | cmd/agent-testbench/environment_restore_docker_plan.go:243-260 | unless cleanup is requested, allowed and linked, nothing in that list is a down or a docker rm |
| Restore.GoesWellExactly | cmd/agent-testbench/environment_restore_docker.go:11-84 | success is told by what is recorded, the options and the world alone |
| Restore.Docker.PreparePhase | cmd/agent-testbench/environment_restore_docker.go:11-33 | commands are reached exactly in execute mode after plan, files and Compose files are in order |
| Restore.Docker.Execute | cmd/agent-testbench/environment_restore_docker.go:11-84 | what runs is a prefix of backup, cleanup and startup; in execute mode the report is good if and only if every step went well |
| Restore.Docker.Restore | cmd/agent-testbench/environment_restore_docker.go:11-84 | for every recorded environment and option: only listed commands run, in order; without permission nothing that removes containers runs, and a cleanup asked for without it runs nothing at all and fails; the report is good exactly if everything went well, and then everything listed ran |
| Attempts.Trim | cmd/agent-testbench/environment_restore_persistence.go:247-260 | the trimming loop ends with the longest suffix that fits, or nothing |
| Attempts.LongestFittingIsLongest | cmd/agent-testbench/environment_restore_persistence.go:247-260 | no longer suffix fits, and it fits whenever the empty list does |
| Attempts.ArraySizeIsTheLength | cmd/agent-testbench/environment_restore_persistence.go:247-260 | the size that is compared with the limit is the length of the JSON array |
| Attempts.Append | cmd/agent-testbench/environment_restore_persistence.go:263-275 | the new attempt is appended, after the last 19 stored ones if there are 20 or more, and else after all |
| Attempts.Persist | cmd/agent-testbench/environment_restore_persistence.go:164-173 | what is stored after one restore, and that it is within both limits |
| Attempts.StoredAreTheLastAccepted | cmd/agent-testbench/environment_restore_persistence.go:198-275 | over any sequence of restores, at most 20 attempts are stored and they are the last accepted ones |
| Attempts.StoredAreTheLongestThatFits | cmd/agent-testbench/environment_restore_persistence.go:198-275 | after each accepted restore they are the longest suffix of the capped list that fits |
| Attempts.StoredAreTheLastExactly | internal/store/environment.go:93-95 | they are the last of all attempts if and only if as many restores at the end were accepted |
| Attempts.RefusedSummaryLeavesAGap | cmd/agent-testbench/environment_restore_persistence.go:164-173 | a refused restore between two that fit is missing from the stored attempts |
| Events.Stream.RunObserved | cmd/agent-testbench/environment_restore_events.go:268-357 | the select loop takes exactly the command's turns in the shared stream, whoever else emits in between: started, running for each tick taken, and one end that tells whether its result has an error; nothing else ends it |
| Events.WatchingSpeaks | cmd/agent-testbench/environment_restore_events.go:314-334 | for every order of process end, context end, ticks and other emitters, the stream has the command where the loop is, and none of its events is lost |
| Events.ExitCodeIgnoresTheRace | cmd/agent-testbench/environment_restore_events.go:359-395 | once the context has ended, exit code (124 or 130) and failure do not depend on which branch wins |
| Events.CanceledTells | cmd/agent-testbench/environment_restore_events.go:375-395 | the text of a stopped command begins with why it was stopped, and its code is 124 or 130 |
| Events.StoppedTells | cmd/agent-testbench/environment_restore_events.go:359-395 | the result of any command whose context ended is such a text, with what is known of its output |
| Events.ResultTells | cmd/agent-testbench/environment_restore_events.go:285-334 | otherwise it tells why the command could not start, or its output and, if it failed, its error before that |
| Events.SucceedsExactly | cmd/agent-testbench/environment_restore_events.go:285-334 | a command reports success if and only if its process ended with success and the context had not ended before its result was taken; otherwise the exit code tells which it was |
| Events.EveryInterleavingSpeaksInOrder | cmd/agent-testbench/environment_restore_events.go:91-114 | in every interleaving events are numbered one by one, and each command says started, running, and exactly one end |
| Events.WrittenNumbersIncrease | cmd/agent-testbench/environment_restore_events.go:91-114 | the written events carry strictly increasing numbers |

## Left out

- FailureMeansNoEffect: needs that no reply of the server is lost; with lost replies `InterruptedHoldsAPrefix` says
  what may remain.
- FailureMeansNothingCommitted: needs the same of the database's replies; `LostReplyLeavesARevision` shows why.
- PrepareThenValidate: the text of the environment file is a parameter that is not empty in a named workspace. Two
  directories are two separate trees, so that one inside the other is not modelled. Modes are given by cleaned path:
  `ValidatingAnother` holds for modes that differ, but how raw keys of modes are folded is not modelled.
- DocContains: Go takes a key of a stored document that differs from `caseId` or `caseExecution` only in case for that
  field, and the last one wins; here only the exact keys count, so that `WillBeSelected` and what follows from it do not
  speak of documents with such keys.
- EditIsSelectedAndStays: does not model these keys either; a stored `caseid` can leave a written configuration unselected.
- CompletedDependency: the class works on what it can see of one line (indent, key, flags); `ComposeText` writes
  names without quotes, and keeps attributes, list items and all other lines as arbitrary text.
- UpsertConfig: works on lists as values; the in-place change of the loaded snapshot's slice is not modelled. A
  configuration whose JSON is the literal `null`, on which the code panics, is not modelled.
- ExecuteTarget: one server and one client at a time; concurrency is in `MigrationSystem`.
- RunObserved: when the ticker fires, the process ends and the select is scheduled are choices of a parameter; a
  command that is run without an event stream is not modelled.
- A submitted SQL script takes effect entirely or not at all; that is proved necessary. Other users of the database
  do not touch the history table. In a batch, the answer to a precondition depends only on what was executed.
- SQL, JSON and YAML are abstract values; SHA-256 is a function, injective where a result needs it. Column widths
  other than that of the checksum, collation and trailing blanks are not modelled.
- Asset keys are pairs of owner and id instead of one string joined by a zero character.
- The catalog is modelled for one profile; reading a snapshot is one step; the write lock file is not needed.
- File modes after the umask, directories above the workspace, and other processes that change the workspace during
  a write are not modelled.
- Health checks run on a virtual clock that moves only while a probe, a cancellation or a pause lasts; what a probe
  sees is a parameter, and the deciding of a health state from Docker's output is not modelled.
- Whether an environment is linked to its Compose file, and the projection of native and edge assets, are
  parameters of the restore phases; no order is claimed for edge assets.
- The kinds of health check merged from components, the references of edge assets and the catalog case fields: they
  would only add easy members.
- Option parsing beyond the re-orderer, printing, reports, output redaction, processes and the network.
