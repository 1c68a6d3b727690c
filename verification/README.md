# Local Runtime and collaboration: a model with proofs

This Dafny project models the parts of the repository in which several steps, runs or representations have to agree,
and proves that they do, or exactly when they do. `dafny verify dfyconfig.toml` checks all of it.

| file | what it models |
|---|---|
| `Lcs.dfy`, `Hunks.dfy`, `Lines.dfy` | longest common subsequences, `diffHunks`, splitting text into lines |
| `Merge.dfy` | `mergeWorkspaceText`, the three-way line merge |
| `ReportDiff.dfy` | `lcsDiff` and the report preview, on the same theory |
| `Disk.dfy`, `ChangeSet.dfy` | files, and what one change of a batch is judged by and does |
| `BatchLog.dfy`, `LocalWorkspace.dfy` | the transactional batch writer, with faults and with other processes, and the log of a run |
| `RoundTrip.dfy`, `MovedWorkspace.dfy` | `buildChangeSet`, and applying it, to the first snapshot or to whatever it has become |
| `StableJson.dfy`, `CanonicalText.dfy`, `TextShape.dfy` | `stableJson`, a parser for its text, when it is canonical, and what it looks like |
| `ChangeSetText.dfy` | the trees of change sets, whose text and digest authorise a batch |
| `WritebackAuthorization.dfy` | `LocalWritebackAuthorizationStore` against the plain history |
| `RuntimeHealth.dfy`, `RuntimeWatchdog.dfy` | `reduceRuntimeHealth` over whole runs, the silence watchdog, and the execution budget |
| `WorkspaceIndex.dfy` | the incremental index against the full rebuild |
| `WindowsQuoting.dfy` | quoting for Windows against the argument parser that undoes it |
| `IntentScope.dfy`, `IntentClasses.dfy` | `assertIntentInvocationScope`, what follows from all its branches, and exactly what it admits |
| `CollaborationPanels.dfy` | the event fold behind the collaboration panels |
| `PanelReadings.dfy`, `PanelRoutes.dfy` | what the built panels say of the events, and take over from their routes |
| `StdoutLines.dfy` | the chunk-wise line assembler against the whole text |
| `StopReceiptHistory.dfy`, `StopReceipts.dfy` | the stop-receipt retransmission protocol, over all interleavings |
| `Options.dfy`, `ScriptValues.dfy`, `Collation.dfy`, `Permutations.dfy`, `StableSort.dfy` | optional values, JavaScript's view of strings and numbers, and its sort |

Code that changes state step by step is a class or a method with loops, proved against a function of the inputs, of the
old state or of the history; the laws are lemmas about that function, and those on results and on the main functions
speak of the inputs themselves, not of the function again. Files are a map from normalised paths to bytes,
hashes are an injective function, clocks and oracles are parameters. Every `await` at which something else can happen is
a step boundary: `LocalWorkspace` calls `Pause`, at which other processes do anything that leaves a file tree, and each
method of `StopReceipts.Bridge` is one uninterrupted stretch of code. A batch keeps a ghost log of every step on its disk,
its own and those of others; each begins where the one before ended, so that no write can stay out of it, and each has to
be legal where it stands (`BatchLog.Legal`). What the batch may do to the files of others is proved about all such logs.

Where a property does not hold as one would wish it, the code is modelled as it is, and the exact condition is proved:

- The canonical text of a tree depends on the order of its keys if and only if an object in it has two keys that the
  locale-aware comparison does not tell apart (`CanonicalText.CanonicalIffUntied`). Change sets have no such keys, so the
  text that authorises a batch is canonical (`ChangeSetText.DigestNamesOneChangeSet`).
- The panels do not depend on the order of delivery unless two events created together have ids that the locale-aware
  comparison does not tell apart; then they can (`CollaborationPanels.DeliveriesConverge`,
  `CollaborationPanels.TiesDiverge`), although their comment says that refresh and replay converge.
- Diff then patch is the identity except where a file takes the place of a directory, or the reverse, or text does not
  survive decoding (`RoundTrip.DiffThenPatch`, `RoundTrip.FileBecomesDirectory`, `RoundTrip.TextComesOutChanged`).
- An output-contract error that gives the exit of the process as its failure does not make the budget fall back while the
  runtime is connected, although no progress can be reported any more (`RuntimeHealth.LossFallsBack`,
  `RuntimeHealth.ContractErrorWaits`).
- A rebuild cut short by the limit is reported complete when the limit is reached in the last directory found; the flag
  can be trusted if and only if the full index fits or a directory is left unlisted (`WorkspaceIndexes.CompleteMeansExact`,
  `WorkspaceIndexes.FlatTreesOverflow`).
- A flush keeps the entry of a path that has become a special file (`WorkspaceIndexes.FlushIsRebuild`,
  `WorkspaceIndexes.SpecialFileStays`), and the filter on watcher events drops files named like excluded directories,
  which a rebuild lists (`WorkspaceIndexes.FilterKeepsCover`, `WorkspaceIndexes.OverlookedFile`).
- The registered Windows command loses an executable name with a quote mark in it, or with a backslash at its end where it
  has to be quoted (`WindowsQuoting.CommandComesApart`, `WindowsQuoting.UnsafeProgramsAreLost`).
- An unterminated line over the cap at the end of a chunk loses output (`StdoutLines.Collect`,
  `StdoutLines.LongLineIsLost`).
- A heartbeat can send a receipt before it is saved, if and only if an exited invocation still waits for its save
  (`StopReceipts.PendingIsSavedIff`, `StopReceipts.HeartbeatSendsUnsaved`).
- Without an effect scope the intent guard lets plans that write pass (`IntentScope.WritersPassIff`).

## Model

| member | source | states |
|---|---|---|
| `Lcs.LengthIsMaximum` | packages/shared/src/workspace-three-way-merge.ts:55-65 | the table recurrence is the maximum length over all common subsequences of the two line lists: one attains it, none exceeds it |
| `Hunks.FillTable` | packages/shared/src/workspace-three-way-merge.ts:56-65 | the flat 32-bit table, filled bottom-up, holds the LCS length of every pair of suffixes; the cell limit keeps every index in range and every entry in 32 bits |
| `Hunks.FillRow` | packages/shared/src/workspace-three-way-merge.ts:58-65 | one row is filled from the row below it and every entry before it is left alone |
| `Hunks.DiffHunks` | packages/shared/src/workspace-three-way-merge.ts:55-96 | the imperative fill and walk returns the list the recursive walk describes, for which the next four rows hold |
| `Hunks.DiffIsCorrect` | packages/shared/src/workspace-three-way-merge.ts:67-96 | carrying out the hunks on the base gives the target; consecutive hunks are separated by a kept line, no hunk is empty, and the kept lines number exactly the LCS length |
| `Hunks.DiffIsMinimal` | packages/shared/src/workspace-three-way-merge.ts:55-96 | no patch from base to target, of any shape, removes or inserts fewer lines |
| `Hunks.WalkIsSeparated` | packages/shared/src/workspace-three-way-merge.ts:71-95 | from every state of the walk, the hunks still to come start at or after the open one and are pairwise separated |
| `Hunks.WalkKeeps` | packages/shared/src/workspace-three-way-merge.ts:75-93 | from every state of the walk, the base lines that survive number exactly the LCS length of the remaining suffixes: no tie-break loses a line |
| `Lines.JoinSplitLines` | packages/shared/src/workspace-three-way-merge.ts:51-53 | joining the split lines gives the text back, and every line but the last is terminated |
| `Lines.SplitLinesJoin` | packages/shared/src/workspace-three-way-merge.ts:51-53 | splitting undoes joining on every list that has the shape of a split |
| `Merge.MergeWorkspaceText` | packages/shared/src/workspace-three-way-merge.ts:17-49 | what the result says of the three texts: a side that agrees with the base or the other side gives way; otherwise it succeeds if and only if the texts fit the table and no two different hunks of the two diffs touch, and its content is then both the base with exactly the hunks of both diffs and the current text with the candidate's own hunks moved onto it; else the reason is the right one |
| `Merge.CollectHunks` | packages/shared/src/workspace-three-way-merge.ts:34-42 | the pushing loop reports overlap exactly when some current and some different candidate hunk claim the same place, and otherwise holds both hunk sets, a shared hunk once |
| `Merge.SpliceAll` | packages/shared/src/workspace-three-way-merge.ts:44-47 | splicing back to front gives the base with all hunks carried out front to back |
| `StableSort.SortSorts` | packages/shared/src/workspace-three-way-merge.ts:45 | for any total preorder the sort that the merge, the canonical text and the panels use puts the list in order |
| `StableSort.SortIsStable` | apps/web/src/components/collaborationTaskModel.ts:133 | members that compare equal keep the order they came in, in lists of any length |
| `Merge.SortedIsFlippedUnion` | packages/shared/src/workspace-three-way-merge.ts:45 | whatever order the hunks were pushed in, sorting them back to front gives the one reversed union |
| `Merge.OverlapsIffNeitherBefore` | packages/shared/src/workspace-three-way-merge.ts:104-111 | the pairwise test holds of two different hunks if and only if neither lies wholly before the other |
| `Merge.MergeSymmetric` | packages/shared/src/workspace-three-way-merge.ts:17-49 | for all base, x and y, swapping x and y changes neither verdict nor content |
| `Merge.MergedLinesAreUnion` | packages/shared/src/workspace-three-way-merge.ts:34-48 | a successful merge is the base with one patch carried out, whose hunks are exactly those of both diffs, with distinct starts and disjoint ranges |
| `Merge.EarlyReturnsAgree` | packages/shared/src/workspace-three-way-merge.ts:18-20 | each of the three early returns gives the content that the general path would give |
| `Merge.MergeIsRebase` | packages/shared/src/workspace-three-way-merge.ts:32-48 | shifting the candidate-only hunks by the length changes of the current hunks before them and carrying them out on the current lines gives the merged lines |
| `Merge.RebasesMeet` | packages/shared/src/workspace-three-way-merge.ts:32-48 | rebasing the candidate on current and current on the candidate give the same lines |
| `Lines.JoinWithSplitOn` | apps/web/src/components/reportDiffPreview.ts:22-34 | splitting at line feeds loses nothing |
| `ReportDiff.LcsDiff` | apps/web/src/components/reportDiffPreview.ts:48-82 | the two-dimensional table and the two draining loops produce the rows of the recursive walk |
| `ReportDiff.RowsRebuild` | apps/web/src/components/reportDiffPreview.ts:61-81 | from every point of the walk, the rows still to come rebuild the rest of both inputs, with as many equal rows as the LCS length |
| `ReportDiff.LcsDiffIsMinimal` | apps/web/src/components/reportDiffPreview.ts:48-82 | the rows rebuild both inputs, and no list of rows that does shows fewer additions or removals |
| `ReportDiff.SameEditSize` | apps/web/src/components/reportDiffPreview.ts:48-82 | on the same line lists the preview adds and removes exactly as many lines as the merge engine does |
| `ReportDiff.TieBreaksDiffer` | apps/web/src/components/reportDiffPreview.ts:71-77 | at every two lines that differ both walks take the cheaper side, and at every tie the merge's next hunk inserts at once while the next row of the preview removes |
| `ReportDiff.BuildReportDiffPreview` | apps/web/src/components/reportDiffPreview.ts:21-46 | the preview shows both contents in full; its counts are those of a minimal edit, and confirmation is asked for exactly when the report is new or differs |
| `ChangeSet.ChangePaths` | packages/local-runtime-cli/src/workspace.ts:463-467 | every path of the changes, once |
| `ChangeSet.PlanFailsForGood` | packages/local-runtime-cli/src/workspace.ts:386-401 | an error on one change is the outcome for the whole set, whatever follows it |
| `ChangeSet.AcceptedValidate` | packages/local-runtime-cli/src/workspace.ts:386-401 | every change of an accepted plan, merged or not, validates against the disk it was judged on |
| `ChangeSet.AcceptedAreInformed` | packages/local-runtime-cli/src/workspace.ts:386-402 | no edit is overwritten unseen and no change gets lost: an accepted change meets the content its author saw, or is its merge with what is on disk, and every change is accepted so, is on disk already, or conflicts |
| `ChangeSet.AcceptedAsItStandsIff` | packages/local-runtime-cli/src/workspace.ts:386-402 | a change is accepted as it stands if and only if the disk is what its author saw, nothing bars its paths, and deleting is allowed where it makes a file disappear |
| `ChangeSet.MoveIsJudged` | packages/local-runtime-cli/src/workspace.ts:663-690 | what becomes of an allowed move: the first thing in its way, at its source and then at its target |
| `ChangeSet.PlanTells` | packages/local-runtime-cli/src/workspace.ts:386-402 | the plan fails exactly if a verdict does, and otherwise accepts and refuses exactly what the verdicts do |
| `ChangeSet.FirstFailureCounts` | packages/local-runtime-cli/src/workspace.ts:386-402 | the first change whose verdict is an error decides the error of the whole |
| `ChangeSet.NoDeleteWithoutPermission` | packages/local-runtime-cli/src/workspace.ts:387-391 | without the permission to delete no plan lets a deletion or move through, and one in the list fails it |
| `ChangeSet.ExecuteLeaves` | packages/local-runtime-cli/src/workspace.ts:406-430 | after a batch each path holds what the last change that mentions it says, a moved file its original content, and every other path what it held |
| `ChangeSet.EffectKeepsTree` | packages/local-runtime-cli/src/workspace.ts:413-429 | carrying out a change that validates leaves a file tree |
| `LocalWorkspaces.LocalWorkspace.PlanChanges` | packages/local-runtime-cli/src/workspace.ts:384-402 | the first loop computes the plan that the rows above describe: every change merged with what is on disk and validated, in order, with all conflicts collected; a deletion or move without the permission to delete fails it |
| `ChangeSet.JudgedFairly` | packages/local-runtime-cli/src/workspace.ts:386-402 | one change under judgement: what is accepted keeps its author's intent and meets the content expected or is merged with it, and it is skipped only when its merge is on disk already |
| `LocalWorkspaces.LocalWorkspace.CarryOut` | packages/local-runtime-cli/src/workspace.ts:407-430 | one round, after any act of other processes: the write is that of the change, on the disk found at that moment, on which the change validates; otherwise no file content changes and the error is that of what was found; the record stays that of the log |
| `LocalWorkspaces.LocalWorkspace.CarryOutAll` | packages/local-runtime-cli/src/workspace.ts:406-430 | alone, the loop carries out exactly the re-validated changes in order and fails exactly when one no longer validates |
| `LocalWorkspaces.LocalWorkspace.RollBackOne` | packages/local-runtime-cli/src/workspace.ts:433-448 | after any act of other processes, a path is put back if and only if it can be read and holds exactly what the batch left there and the restore goes through; in every other case the disk stays as it is found and the reason is given |
| `LocalWorkspaces.LocalWorkspace.RollBack` | packages/local-runtime-cli/src/workspace.ts:431-453 | under any interference every written path is put back or left as found, exactly those left are named, each with its reason, and no other path is touched |
| `LocalWorkspaces.EffectAccounted` | packages/local-runtime-cli/src/workspace.ts:413-429 | what is recorded for a change is what its paths hold afterwards, for a move also when the same bytes come from the earlier snapshot |
| `LocalWorkspaces.EffectRecoverable` | packages/local-runtime-cli/src/workspace.ts:407-430 | without other processes every path the batch has written can still be inspected and put back |
| `LocalWorkspaces.RoundDone` | packages/local-runtime-cli/src/workspace.ts:433-448 | one more path dealt with: the others keep their fate, the names stay exactly the paths left alone |
| `BatchLog.OnlyKnownContentIsReplaced` | packages/local-runtime-cli/src/workspace.ts:407-448 | over every run, whatever other processes do: the batch changes a path only by a change that validates at that very moment, where the path holds its original content, or by putting back the original where the path holds exactly what the batch left |
| `BatchLog.UnwrittenIsLeftToOthers` | packages/local-runtime-cli/src/workspace.ts:433-448 | a path that the batch has not written is changed by other processes only |
| `BatchLog.CarriedLeaves` | packages/local-runtime-cli/src/workspace.ts:413-429 | under any interference a change that goes through finds the originals at its paths, leaves there what it says, and touches no sensitive path |
| `BatchLog.NothingTakenAway` | packages/local-runtime-cli/src/workspace.ts:387-391 | while nothing is deleted or moved, no step of the batch, its rollback included, makes an original file disappear |
| `BatchLog.EditsSurvive` | packages/local-runtime-cli/src/workspace.ts:439-447 | content of a path that is neither the original nor the batch's own is there at the end, unless other processes change it again |
| `BatchLog.MineOrTheirs` | packages/local-runtime-cli/src/workspace.ts:407-448 | at any time a path holds what the batch last left there, or else what other processes left there since |
| `BatchLog.UnnamedIsOriginalOrTheirs` | packages/local-runtime-cli/src/workspace.ts:431-460 | after a failed batch a path that is not named holds its original content, or what other processes left there last |
| `BatchLog.KeptWasLeftAsFound` | packages/local-runtime-cli/src/workspace.ts:435-453 | for every named path there is a moment at which the rollback found it unreadable, or with content the batch had not left there, or failed to restore it, as the reason says, left it as it was, and did not touch it again |
| `BatchLog.AloneIsUndone` | packages/local-runtime-cli/src/workspace.ts:431-453 | without other processes and without names a failed batch leaves every file as it was |
| `LocalWorkspaces.SnapshotsCover` | packages/local-runtime-cli/src/workspace.ts:403-405 | the snapshots hold the starting content of every path that any accepted change mentions |
| `LocalWorkspaces.LocalWorkspace.RunBatch` | packages/local-runtime-cli/src/workspace.ts:403-460 | snapshot, carry out, roll back: applied exactly when every change went through, else some first changes went through and every written path is put back or named; only mentioned paths are ever written |
| `LocalWorkspaces.LocalWorkspace.ApplyChangeSet` | packages/local-runtime-cli/src/workspace.ts:378-461 | nothing is touched on refusal or conflict, or when a deletion or move meets no permission to delete, without which no original file ever disappears; otherwise all that happens is in an honest log, for which the rows above hold: success is all accepted changes in order, failure is a prefix of them with every written path put back or named; alone, the batch is all or nothing, succeeds if and only if the plan has no conflict and every change still validates in turn, and leaves at each path what the last change of it says |
| `RoundTrip.BuildChangeSet` | packages/local-runtime-cli/src/runtime.ts:442-473 | one change for each path that differs, with the new text, the hash of what was there and, for an update or deletion, its old text if it was text; and none at all if and only if a new or edited file is not text |
| `RoundTrip.DiffIsNull` | packages/local-runtime-cli/src/runtime.ts:471 | there is no change set exactly when the two snapshots hold the same files |
| `RoundTrip.PatchGoesThrough` | packages/local-runtime-cli/src/runtime.ts:442-473 | without a clash the whole difference is accepted as it stands and executes, and every file comes out as its decoded and encoded self |
| `RoundTrip.ClashIsRefused` | packages/local-runtime-cli/src/workspace.ts:663-668 | a new file in the place of a directory, or under a file of the first state, is never accepted |
| `RoundTrip.DiffThenPatch` | packages/local-runtime-cli/src/runtime.ts:442-473 | diff then patch gives exactly the second state if and only if no new file clashes with the tree and every changed file survives decoding and encoding |
| `RoundTrip.PatchWorkspace` | packages/local-runtime-cli/src/workspace.ts:378-461 | the same through the two programs: the change set is applied if and only if no new file clashes, otherwise the disk stays as it was, and the disk holds the second state if and only if every changed file survives decoding and encoding |
| `RoundTrip.FileBecomesDirectory` | packages/local-runtime-cli/src/workspace.ts:663-668 | the input on which it fails: a file of the first state is a directory of the second |
| `RoundTrip.TextComesOutChanged` | packages/local-runtime-cli/src/runtime.ts:448-463 | the other input: a new file whose text decoding and encoding does not give back |
| `MovedWorkspace.PatchMovedWorkspace` | packages/local-runtime-cli/src/workspace.ts:378-461 | diff then patch on a workspace that has moved on: refused with exactly the conflicts its paths call for, failed exactly for a path that is blocked or a directory by now, and otherwise every path ends up as its three versions say, a file edited by both as the merge of old snapshot, disk and new snapshot |
| `MovedWorkspace.UpdateIsJudged` | packages/local-runtime-cli/src/workspace.ts:491-522 | the verdict on an edited file: taken over, merged, already there, conflicting when the merge is refused, or changed without a text to merge from |
| `MovedWorkspace.UntangledExecute` | packages/local-runtime-cli/src/workspace.ts:406-430 | changes of different paths, none below another, that validate on one disk go through in any such list |
| `StableJson.TextParses` | packages/shared/src/workspace-change-set-json.ts:7-16 | a parser for JSON text without white space, with strings as in section 7 of RFC 8259, reads the canonical text back and stops at its end, whatever follows |
| `StableJson.SameTextSameMeaning` | packages/shared/src/workspace-change-set-json.ts:7-16 | trees with the same text are equal up to the order of object keys, whatever comparison the sort uses |
| `CanonicalText.CanonicalIffUntied` | packages/shared/src/workspace-change-set-json.ts:7-16 | a tree has the same text as every tree that is equal to it up to key order if and only if no object in it has two distinct keys that compare equal |
| `CanonicalText.TiedKeysShow` | packages/shared/src/workspace-change-set-json.ts:11 | two such keys in an object: moving the later one to the front gives an equal object with a different text |
| `CanonicalText.CanonicalIffNoTies` | packages/shared/src/workspace-change-set-json.ts:7-16 | all texts are canonical if and only if the comparison has no ties at all, which no locale-aware comparison meets; the next rows are what holds of change sets all the same |
| `ChangeSetText.ChangeSetIsPlain` | packages/shared/src/contracts.ts:480-519 | every change set is a well-formed tree without tied keys, since its keys are a fixed handful of names |
| `ChangeSetText.OneTextPerChangeSet` | packages/shared/src/workspace-change-set-json.ts:7-16 | in whatever order its fields are listed, at whatever depth, a change set has one text |
| `ChangeSetText.OneChangeSetPerText` | packages/shared/src/workspace-change-set-json.ts:7-16 | change sets with the same text are the same change set, for every comparison |
| `ChangeSetText.DigestNamesOneChangeSet` | packages/local-runtime-cli/src/transport.ts:916-918 | so the digest that authorises a batch authorises exactly one change set, whatever the order of its fields |
| `TextShape.ObjectReads` | packages/shared/src/workspace-change-set-json.ts:9-13 | the text of an object lists all its members in ascending order of their keys |
| `TextShape.ArrayReads` | packages/shared/src/workspace-change-set-json.ts:8 | the text of an array lists its items in their order |
| `TextShape.QuoteReads` | packages/shared/src/workspace-change-set-json.ts:12-15 | a string is printed character by character between quote marks |
| `TextShape.EscapeReads` | packages/shared/src/workspace-change-set-json.ts:12-15 | each character as it is, with its short escape, or, for the other control characters, by its code in lower-case hexadecimal |
| `WritebackAuthorization.LocalWritebackAuthorizationStore.AuthorizeDigest` | packages/local-runtime-cli/src/transport.ts:875-882 | accepted exactly for a hexadecimal digest and a non-empty id; replaces what was in force for that change set only |
| `WritebackAuthorization.LocalWritebackAuthorizationStore.AuthorizeDelete` | packages/local-runtime-cli/src/transport.ts:871-873 | authorises the digest of the canonical text |
| `WritebackAuthorization.LocalWritebackAuthorizationStore.HasDelete` | packages/local-runtime-cli/src/transport.ts:902-913 | true exactly when the history covers the change set; forgetting an expired entry changes nothing the history says |
| `WritebackAuthorization.LocalWritebackAuthorizationStore.PermissionsFor` | packages/local-runtime-cli/src/transport.ts:884-890 | a request is upgraded exactly when the latest authorisation for its workspace and id has its digest, is younger than the time limit, and has seen no successful apply since |
| `WritebackAuthorization.LocalWritebackAuthorizationStore.RecordApplyResult` | packages/local-runtime-cli/src/transport.ts:892-900 | a successful apply, and nothing else, uses the authorisation up |
| `WritebackAuthorization.PutRepresents` | packages/local-runtime-cli/src/transport.ts:879-881 | the nested maps after an authorisation represent the longer history, with no inner map empty |
| `WritebackAuthorization.DropFinds` | packages/local-runtime-cli/src/transport.ts:897-899 | dropping an entry loses no other entry and leaves no inner map empty |
| `WritebackAuthorization.CoversReads` | packages/local-runtime-cli/src/transport.ts:884-913 | a request is covered if and only if the latest thing that has happened to its change set, an authorisation or a successful apply, is an authorisation of its digest, younger than the time limit |
| `WritebackAuthorization.UsedOnce` | packages/local-runtime-cli/src/transport.ts:892-900 | after a successful apply nothing is covered until the change set is authorised again |
| `WritebackAuthorization.CoveredIsAuthorized` | packages/local-runtime-cli/src/transport.ts:916-918 | what is covered has, up to key order, the content that was authorised |
| `RuntimeHealth.RunIsCoherent` | apps/server/src/common/runtime-health-policy.ts:9-101 | on every run: canWait exactly in unknown_wait, canStop exactly outside stopping and terminal, retrying exactly when abnormal and not stopping, and at most 4096 remembered keys |
| `RuntimeHealth.StepIsLater` | apps/server/src/common/runtime-health-policy.ts:21-101 | every input leads to a later state, and raises the version by exactly one if it changes the snapshot and not otherwise |
| `RuntimeHealth.RunIsLater` | apps/server/src/common/runtime-health-policy.ts:21-101 | along every run live, stopping and terminal are one-way, terminal is final, and version and lastSequence never fall |
| `RuntimeHealth.IgnoredExactly` | apps/server/src/common/runtime-health-policy.ts:35-50 | an observation leaves the snapshot alone exactly when it is foreign, stale, a duplicate, invalid progress, or comes too late |
| `RuntimeHealth.WindowIsHistory` | apps/server/src/common/runtime-health-policy.ts:40-42 | the remembered keys are the last 4096 keys accepted in the whole run |
| `RuntimeWatchdog.ClockIsHistory` | apps/server/src/common/runtime-health-policy.ts:50-51 | the progress clock is the time of the last sign of progress in the whole run, or of its start |
| `RuntimeWatchdog.TickDecides` | apps/server/src/common/runtime-health-policy.ts:26-30 | on every run a tick finds an ongoing invocation silent, unless a fault stands or the silence is known, if and only if it comes at least the allowed time after the last progress in the history; it then changes exactly the fields of the silence, dated from the tick, and otherwise nothing |
| `RuntimeWatchdog.SilenceIsReal` | apps/server/src/common/runtime-health-policy.ts:26-30 | no false alarm: every reported silence began with a tick that came late enough, or an unanswered probe, and nothing has shown progress since |
| `RuntimeWatchdog.WaitDecides` | apps/server/src/common/runtime-health-policy.ts:31-33 | a wait is acknowledged exactly while a silence is being waited out |
| `RuntimeWatchdog.ObservationCounts` | apps/server/src/common/runtime-health-policy.ts:35-50 | on every run an observation changes the snapshot if and only if it is news of this invocation, which has not ended, counts while that is being stopped, and is no progress without a positive count |
| `RuntimeWatchdog.ProgressMoves` | apps/server/src/common/runtime-health-policy.ts:47-65 | where each of the seven signs of progress leads: stage, request status and cause, with every fault and silence cleared, unless a fault withstands it |
| `RuntimeWatchdog.RequestMoves` | apps/server/src/common/runtime-health-policy.ts:67-70 | a request leads to awaiting the response, unless a silence or a fault stands |
| `RuntimeWatchdog.ProbeMoves` | apps/server/src/common/runtime-health-policy.ts:71-79 | a probe that finds the process gone is a provider error, one without an answer begins a silence unless a fault stands |
| `RuntimeWatchdog.FaultMoves` | apps/server/src/common/runtime-health-policy.ts:80-89 | a fault is recorded with its cause, details and time, unless a stronger one stands |
| `RuntimeWatchdog.StopMoves` | apps/server/src/common/runtime-health-policy.ts:90-95 | where the stop and the end lead, from every stage |
| `RuntimeWatchdog.ObservationShows` | apps/server/src/common/runtime-health-policy.ts:47-79 | what each observation shows of the runtime's capabilities and which date it moves, and no other |
| `RuntimeWatchdog.CheckDecides` | apps/server/src/common/execution-budget-policy.ts:9-19 | what the budget check of any reachable snapshot answers: how long to wait, or why to fall back |
| `RuntimeWatchdog.FaultDecidesBudget` | apps/server/src/common/execution-budget-policy.ts:9-19 | over whole runs, after a fault and only such input as does not answer it, the check past the deadline falls back for the reason of that fault, or waits for a corrected output |
| `RuntimeHealth.RetransmissionIgnored` | apps/server/src/common/runtime-health-policy.ts:40-41 | repeating any of the last 4096 accepted events never changes the snapshot or the progress clock |
| `RuntimeHealth.LossIsNeverMasked` | apps/server/src/common/runtime-health-policy.ts:44-91 | once abnormal with the control connection or the process lost, no continuation reports progress; the only ways out are stopping and terminal |
| `RuntimeHealth.FaultStands` | apps/server/src/common/runtime-health-policy.ts:53-91 | however long late tool results, unrelated tool failures, silence and transport signs go on, an unresolved provider fault stands with its first cause and time; a broken output contract is answered by nothing but an accepted submission among progress |
| `RuntimeHealth.OthersEndFault` | apps/server/src/common/runtime-health-policy.ts:47-96 | the converse: any other observation taken in ends a recoverable fault, by progress, by the stop, or by being the newer fault |
| `RuntimeHealth.SilenceNeverFallsBack` | apps/server/src/common/execution-budget-policy.ts:9-19 | on any run without evidence of a fault the budget never falls back while connected, however long the silence |
| `RuntimeHealth.LossFallsBack` | apps/server/src/common/execution-budget-policy.ts:9-19 | past the deadline a lost, unstopped invocation falls back, whatever followed the loss, if and only if it is disconnected or the fault on record is not an output-contract error |
| `RuntimeHealth.ContractErrorWaits` | apps/server/src/common/execution-budget-policy.ts:9-19 | the run on which it waits: the first report is an output-contract error that gives the exit of the process |
| `WorkspaceIndexes.Rebuild` | packages/local-runtime-cli/src/workspace.ts:759-811 | the breadth-first rebuild of a stable tree is exact if and only if the full index fits under the limit; it is reported complete if and only if it has found fewer paths than the limit, or the last path found lies in the last directory found |
| `WorkspaceIndexes.ListDirectory` | packages/local-runtime-cli/src/workspace.ts:761-799 | one directory: its visible children are added and its directories queued, unless the limit cuts in |
| `WorkspaceIndexes.WalkFindsAll` | packages/local-runtime-cli/src/workspace.ts:760-800 | when no directory is left to visit, every path of the tree is indexed exactly as it should be |
| `WorkspaceIndexes.FullIndexReads` | packages/local-runtime-cli/src/workspace.ts:761-799 | what an index should hold, segment by segment: files and directories without a secret name in the path or an excluded directory on it, each with what the tree says of it |
| `WorkspaceIndexes.CompleteMeansExact` | packages/local-runtime-cli/src/workspace.ts:801-811 | reported complete means exact if and only if the full index fits or a directory that was found is left unlisted when the limit cuts in |
| `WorkspaceIndexes.FlatIsReportedComplete` | packages/local-runtime-cli/src/workspace.ts:801-811 | a flat tree is reported complete wherever the limit cuts it |
| `WorkspaceIndexes.FlatTreesOverflow` | packages/local-runtime-cli/src/workspace.ts:801-811 | for every limit some flat tree exceeds it, whose index is therefore called complete without being so |
| `WorkspaceIndexes.WorkspaceIndex.Flush` | packages/local-runtime-cli/src/workspace.ts:581-655 | one incremental flush: when it publishes, the entries are the refreshed ones, ready exactly when no new directory was met; when it does not, the index is as before and the pending paths are gone |
| `WorkspaceIndexes.WorkspaceIndex.RebuildIndex` | packages/local-runtime-cli/src/workspace.ts:732-824 | what a rebuild publishes: entries exact if and only if they fit, a flag that is true exactly as in the rows above, and when that flag can be trusted |
| `WorkspaceIndexes.RefreshStep` | packages/local-runtime-cli/src/workspace.ts:597-627 | refreshing one more path keeps the account of what the flush has made of every path |
| `WorkspaceIndexes.NewDirectoryReads` | packages/local-runtime-cli/src/workspace.ts:597-627 | a flush asks for a rebuild if and only if one of its paths is a directory by now and was not listed as one |
| `WorkspaceIndexes.FlushIsRebuild` | packages/local-runtime-cli/src/workspace.ts:597-627 | from an exact index and paths covering every visible change, a flush that meets no new directory agrees with a full rebuild if and only if no listed path has become a special file |
| `WorkspaceIndexes.SpecialFileStays` | packages/local-runtime-cli/src/workspace.ts:597-627 | the input on which they disagree: a listed file has become a special file |
| `WorkspaceIndexes.FilterKeepsCover` | packages/local-runtime-cli/src/workspace.ts:552-562 | the filter on watcher events loses no visible change if and only if no visible path that changed bears the name of an excluded directory itself |
| `WorkspaceIndexes.OverlookedFile` | packages/local-runtime-cli/src/workspace.ts:916-920 | the input it overlooks: a new file named like an excluded directory, which a rebuild would list |
| `WorkspaceIndexes.FollowChanges` | packages/local-runtime-cli/src/workspace.ts:552-655 | over whole runs of batches, each the filtered events of the watcher, in which every flush gets to publish, no special file replaces a listed one and nothing is overlooked, with the rebuild that a new directory asks for, the index stays exact |
| `WindowsQuoting.QuoteWindowsArgument` | packages/local-runtime-cli/src/protocol-handler.ts:96-116 | the loop computes the quoted form that the next rows speak of |
| `WindowsQuoting.QuotedOnlyIfNeeded` | packages/local-runtime-cli/src/protocol-handler.ts:96-97 | an argument is left as it is exactly when it is not empty and has neither white space nor a quote mark |
| `WindowsQuoting.ParseQuote` | packages/local-runtime-cli/src/protocol-handler.ts:96-116 | the Microsoft C runtime rules read one quoted argument back, whatever it holds, and stop at its end |
| `WindowsQuoting.ParseJoinedQuotes` | packages/local-runtime-cli/src/protocol-handler.ts:66-69 | for every list of arguments, parsing the quoted arguments joined by spaces gives exactly that list |
| `WindowsQuoting.ProgramComesOut` | packages/local-runtime-cli/src/protocol-handler.ts:65 | under the different rules for the program name, the executable comes out unchanged if and only if it holds no quote mark and, when quoted, ends in no backslash |
| `WindowsQuoting.CommandComesApart` | packages/local-runtime-cli/src/protocol-handler.ts:63-70 | the registered command is taken apart into the executable, its arguments and the launch words if and only if the executable is such a name |
| `WindowsQuoting.UnsafeProgramsAreLost` | packages/local-runtime-cli/src/protocol-handler.ts:63-70 | the executables on which it fails: any with a space in it and a backslash at the end, and any with a quote mark |
| `IntentScope.AdmittedNeverWrites` | packages/shared/src/intent-runtime-policy.ts:71-139 | every plan admitted under an effect scope has write mode none and only the tools read_file, search_code and run_test; asking to modify source takes a candidate binding, so write_file is never usable |
| `IntentScope.TestsRunOnlyIsolated` | packages/shared/src/intent-runtime-policy.ts:112-137 | run_test is in an admitted plan exactly when its runtime is the isolated runner, and then it is the only tool and bound to the plan's workspace |
| `IntentScope.TestsStayOnTheirRunner` | packages/shared/src/intent-runtime-policy.ts:36-45 | every effect of an admitted test run targets the runner, or the report, that carries the hash of its binding |
| `IntentScope.ProhibitionsHold` | packages/shared/src/intent-runtime-policy.ts:5-58 | no effect of an admitted plan is named by a prohibition on the same kind and target, and outside the candidate path none on the same kind at all |
| `IntentScope.ReadsAreGranted` | packages/shared/src/intent-runtime-policy.ts:5-68 | an admitted plan reads only its own workspace, has tools only with a grant, and on the candidate path only with a grant besides the candidate's |
| `IntentScope.OneInvocationPerCandidate` | packages/shared/src/intent-runtime-policy.ts:72-86 | all plans admitted under one candidate binding are the same invocation, of the same session, workspace, step, operation and generation |
| `IntentScope.RestrictedClassesStayRestricted` | packages/shared/src/intent-runtime-policy.ts:87-111 | with or without a scope, admitted routing and versioned briefs have no tools and no capabilities, and a response at most reads, on the server and with a grant |
| `IntentScope.OrdinaryAdmittedIff` | packages/shared/src/intent-runtime-policy.ts:112-139 | the exact condition under which the ordinary plans of the business path are admitted |
| `IntentScope.WritersPassIff` | packages/shared/src/intent-runtime-policy.ts:71-139 | where the promise ends: a plan that writes, or has any other tool, passes the guard if and only if it carries neither scope nor binding, asks for no candidate, and is of neither restricted class |
| `IntentClasses.CandidateAdmittedIff` | packages/shared/src/intent-runtime-policy.ts:5-33 | the exact condition for source candidates, on the effects themselves: one on the bound source, perhaps one reading, under the binding's grant and another, with no ban on either |
| `IntentClasses.TestAdmittedIff` | packages/shared/src/intent-runtime-policy.ts:36-45 | the exact condition for isolated test runs: the bound tests, perhaps their report, under a grant and no ban |
| `IntentClasses.ResponseAdmittedIff` | packages/shared/src/intent-runtime-policy.ts:95-104 | the exact condition for responses: one answer and perhaps granted reading of the own workspace |
| `IntentClasses.RoutingAdmittedIff` | packages/shared/src/intent-runtime-policy.ts:105-111 | the exact condition for routing under a scope |
| `IntentClasses.UnscopedRoutingIff` | packages/shared/src/intent-runtime-policy.ts:105-115 | the exact condition for routing without one |
| `IntentClasses.BriefAdmittedIff` | packages/shared/src/intent-runtime-policy.ts:87-94 | the exact condition for versioned briefs |
| `IntentClasses.ErrorNamesInvocation` | packages/shared/src/intent-runtime-policy.ts:71-139 | what each error says of the kind of invocation it refuses |
| `IntentClasses.MismatchNamesTool` | packages/shared/src/intent-runtime-policy.ts:136-137 | a tool mismatch names a tool that none of the effects calls for |
| `CollaborationPanels.BuildCollaborationTaskPanels` | apps/web/src/components/collaborationTaskModel.ts:130-188 | the loops over events and agents compute the fold, whose panels the next rows describe from the events alone |
| `PanelReadings.BuiltPanelsShow` | apps/web/src/components/collaborationTaskModel.ts:48-66 | on the built panels, from event kinds and status words alone: an agent is cancelled if and only if some event heard says so, failed if and only if one reports a failure and none a cancellation, and so on down to pending, with the progress of each; its outputs are what was said and not outdated by something stronger reported before; a panel is failed, cancelled, completed or running as its agents are |
| `PanelReadings.HeardReads` | apps/web/src/components/collaborationTaskModel.ts:145-170 | an agent has heard exactly the events that belong to its panel, name it or, naming none, address it, and neither open a panel nor sum one up |
| `PanelReadings.OrderReads` | apps/web/src/components/collaborationTaskModel.ts:131-133 | events are read once each, at their first mention, by time and then by id |
| `PanelRoutes.BuiltPanelsMatch` | apps/web/src/components/collaborationTaskModel.ts:79-116 | one panel for each route in order, headed as the route says, listing its candidates and whoever has heard an event there, each called as references and cards say, and holding the summaries that belong to it, numbered |
| `CollaborationPanels.DeliveriesConverge` | apps/web/src/components/collaborationTaskModel.ts:130-188 | two deliveries of the same events, permuted or repeated, build the same panels, when no two of them created together have ids that compare equal |
| `CollaborationPanels.TiesDiverge` | apps/web/src/components/collaborationTaskModel.ts:133 | two routes created together with ids that compare equal: the two orders of delivery build different panels |
| `CollaborationPanels.ConvergesIffNoTies` | apps/web/src/components/collaborationTaskModel.ts:125-133 | refresh and replay always agree if and only if the comparison of ids has no ties |
| `CollaborationPanels.FoldGrows` | apps/web/src/components/collaborationTaskModel.ts:137-186 | along the ordered fold panels, agents, outputs and summaries are only added, and no agent's status rank drops |
| `CollaborationPanels.FinishedStaysFinished` | apps/web/src/components/collaborationTaskModel.ts:174-179 | an agent that has finished is finished in every later state |
| `CollaborationPanels.BuildIsSound` | apps/web/src/components/collaborationTaskModel.ts:130-188 | an agent is listed once in a panel, an event once among its outputs, every output shows an event that said something, and every status and progress is the one its parts call for, so that the closing pass changes nothing |
| `CollaborationPanels.EventsReachTheirPanel` | apps/web/src/components/collaborationTaskModel.ts:145-147 | in every state of the fold an event reaches the latest panel of the work it names, or else the latest panel of all, or none when there is none |
| `CollaborationPanels.RouteListsCandidates` | apps/web/src/components/collaborationTaskModel.ts:79-116 | a new panel lists each candidate of its route, and the agent it resolved to, once, and pending |
| `CollaborationPanels.BuildTellsHistory` | apps/web/src/components/collaborationTaskModel.ts:167-184 | whatever the order of its events, each agent has the strongest of the statuses they call for; which event calls for which status is said in the rows of `PanelReadings` |
| `StdoutLines.SplitInTwo` | packages/local-runtime-cli/src/runtime-process.ts:89-90 | splitting a text in two steps, with the unterminated rest carried over, gives the pieces of splitting it once, also between a carriage return and its line feed |
| `StdoutLines.SplitIsWoven` | packages/local-runtime-cli/src/runtime-process.ts:89-90 | the pieces hold no line feed, and with a line feed between any two, and the carriage return before it where there is one, they make up the text |
| `StdoutLines.CaptureIsText` | packages/local-runtime-cli/src/runtime-process.ts:107-114 | output without carriage returns that fits the cap is captured as it is, when sanitising leaves its lines alone |
| `StdoutLines.LastCharsCompose` | packages/local-runtime-cli/src/runtime-process.ts:184-187 | bounding after each piece keeps what bounding once would keep |
| `StdoutLines.StdoutAssembler.Feed` | packages/local-runtime-cli/src/runtime-process.ts:88-96 | after any chunk the callback, the capture and the pending line are those of the whole text so far, unless an unterminated line went over the cap |
| `StdoutLines.StdoutAssembler.Close` | packages/local-runtime-cli/src/runtime-process.ts:107-114 | at the end the callback has seen exactly the lines of the whole text if and only if no unterminated line was over the cap at the end of a chunk |
| `StdoutLines.Collect` | packages/local-runtime-cli/src/runtime-process.ts:88-114 | chunking does not matter: however the output is cut, the lines are those of the whole text if and only if that holds, and then the capture is the bounded capture of the whole text |
| `StdoutLines.LongLineIsLost` | packages/local-runtime-cli/src/runtime-process.ts:88-96 | the chunks on which it fails: a line over the cap, cut before its line feed; uncut, the same text comes through |
| `StopReceipts.Bridge.Exit` | packages/local-runtime-cli/src/transport.ts:578-580 | an exited invocation is put on record, in place of any earlier receipt of the same invocation |
| `StopReceipts.Bridge.StopAck` | packages/local-runtime-cli/src/transport.ts:627-629 | an acknowledgement removes the receipt of its own invocation and no other |
| `StopReceipts.Bridge.Send` | packages/local-runtime-cli/src/transport.ts:188-191 | a stopped message goes out only on an open connection whose server has agreed to the protocol |
| `StopReceipts.Bridge.Connected` | packages/local-runtime-cli/src/transport.ts:263-269 | on agreement everything outstanding is sent at once, in order; all of it is saved if and only if no flight is between its exit and its save |
| `StopReceipts.Bridge.Heartbeat` | packages/local-runtime-cli/src/transport.ts:241-249 | every heartbeat sends everything outstanding again; all of it is saved under the same condition |
| `StopReceipts.ActiveExactlyWhileLive` | packages/local-runtime-cli/src/transport.ts:548-600 | in every reachable state, for an invocation started once on a connection, a second start is a duplicate exactly while the first is live |
| `StopReceipts.Bridge.Report` | packages/local-runtime-cli/src/transport.ts:582-600 | the report sends a receipt that the saved state already has on record |
| `StopReceiptHistory.NeverLost` | packages/local-runtime-cli/src/transport.ts:578-580 | in every reachable state the pending list holds a receipt for an invocation exactly when one was recorded after its last acknowledgement |
| `StopReceiptHistory.KeptUntilAcked` | packages/local-runtime-cli/src/transport.ts:627-629 | what is outstanding is exactly what was recorded and not acknowledged since |
| `StopReceiptHistory.SavedIsKept` | packages/local-runtime-cli/src/transport.ts:581-582 | a receipt that was saved and not acknowledged is found again after a restart |
| `StopReceiptHistory.OutstandingIsSavedOrNew` | packages/local-runtime-cli/src/transport.ts:578-582 | what is outstanding was outstanding when the state was last saved, or has been recorded since |
| `StopReceipts.EveryMessageWasDue` | packages/local-runtime-cli/src/transport.ts:188-191 | in every reachable state, every message ever sent was for a receipt recorded before, on a connection where the server had agreed and about which nothing had been heard since |
| `StopReceipts.PendingIsSavedIff` | packages/local-runtime-cli/src/transport.ts:241-244 | in every reachable state, all that a heartbeat or a reconnection sends is saved if and only if whatever was recorded since the last save is acknowledged, replaced or in the state file already; equivalently, no flight waits for its save with a pending receipt that the file lacks |
| `StopReceipts.HeartbeatSendsUnsaved` | packages/local-runtime-cli/src/transport.ts:241-244 | a run in which it is not: the save before the report does not bind the heartbeat |

## Left out

- LocalWorkspaces.LocalWorkspace.ApplyChangeSet: other processes act only after the snapshots are taken, and each check and the write after it are one step per path; reads of existing files do not fail.
- LocalWorkspaces.LocalWorkspace.RollBack: parent directories made for a failed batch stay, as in the source; only files are put back.
- RoundTrip.DiffThenPatch: the two snapshots list regular files only; a leading byte-order mark and any other text that decoding does not give back are covered by the condition that changed files survive decoding and encoding.
- Merge.MergedLinesAreUnion: is about line lists. At text level a merged line can be the join of two, because an insertion right behind a replaced unterminated line is not an overlap.
- Lines.SplitLinesJoin: text is a sequence of characters; lone surrogates are not modelled.
- StableJson.SameTextSameMeaning: a number is the text it prints as, and values `undefined` are not part of this model.
- StableJson.TextParses: characters are copied as they are, so that the `\u` escapes `JSON.stringify` gives lone surrogates do not arise.
- WorkspaceIndexes.FollowChanges: a flush overtaken by a newer revision returns after its pending paths were cleared; that loses them, so runs in which it happens are left out. So are failing reads and a tree that changes during a walk.
- WorkspaceIndexes.WorkspaceIndex.Flush: language, entry points, detected stack and coverage counts of an index are left out; so are timers and yielding.
- RuntimeHealth.RunIsLater: the fields of a snapshot that the reducer only carries along (phase, agent, runtime type, deadline) and observation sequences that are no integers are left out; the latter are refused like stale ones.
- CollaborationPanels.DeliveriesConverge: timestamps are integers, that is, every `createdAt` parses; the panels' titles are left out.
- IntentScope.OrdinaryAdmittedIff: plans are well typed, so that a missing `expectedOutput` and revisions that are no integers do not arise.
- StopReceipts.ActiveExactlyWhileLive: the check for an active invocation and the entry that makes it active are separate steps, as in the source, so that two starts of one invocation can both get through; for those the exact statement is that of `StopReceipts.Manned`.
- StopReceiptHistory.NeverLost: messages that arrive while the runtime is draining are steps that do not happen; the other traffic of the connection is left out.
- WritebackAuthorization.LocalWritebackAuthorizationStore.PermissionsFor: the clock does not run backwards.
- WindowsQuoting.ParseJoinedQuotes: a doubled quote mark inside quotes, which the quoting never produces, is read by the current rules of the C runtime.
- Symbolic links and alias spellings of paths: a path is its list of segments, and a link is left out of the workspace.
- The queue that serialises batches of one workspace; each batch is one call here.
- Files, sockets, processes, HTTP and GitHub calls, except as steps that take effect or fail without effect.
- Components, routing, stores and texts of the web client, which hold no invariant across steps.
- Closed-shape validators and small status tables; each is a one-branch check.
- Language matching by regular expressions (runtime aliases, control intents, provider failures).
