# IncidentLens: verified models

IncidentLens is a control plane that lets an agent investigate incidents on remote
hosts and change files there, with a terminal client and a web client on top. This
project states and proves, in Dafny 4.11, what its most intricate parts keep:

- **Changeset transaction** (`ChangeTypes`, `PathRules`, `BackupVault`, `RemoteFiles`, `ChangeJournal`,
  `ChangeSpec`, `ChangeManager`, `RollbackSpec`, `ChangeHistory`). A changeset is applied to many remote files:
  preflight, encrypted local backups, verified remote backups, temporary files, an approval gate,
  renames in path order, and an undo in reverse order when anything fails. The remote side is a map
  from path to bytes; each remote operation, vault access, journal write and event may fail
  (`if *`) and then changes nothing. `ChangeManager.Manager.ApplyLocked` states what holds
  after a fault at any step, for any number of files; `Rollback` resumes from any boundary. `ChangeHistory`
  puts calls together: any sequence of applies and rollbacks, and an apply with the rollback attempts after it.
- **Concurrent applies** (`ApplyConcurrency`). A transition system of any number of applies under
  sorted per-path locks: mutual exclusion, no deadlock, bounded runs, no lost update.
- **Text edits** (`TextEdits`). Occurrence search, overlap check and one-pass splice, against an
  independent highest-offset-first replacement.
- **Approvals** (`Approvals`, `Stamps`). Single-use approvals as conditional updates on one table,
  interleaved with any number of other callers, with time stamps compared as text.
- **Keyset paging** (`KeysetPaging`). Approval and message lists read a page at a time while others insert and
  update rows.
- **Terminal client** (`CliReducer`, `CliProjection`, `CliMeaning`, `CliSync`, `TextChunks`). The reducer, the second
  projection from history, what both show in terms of the events alone, cursor-driven recovery over reconnects and
  gaps, and text cut into deltas by the server and merged back by the client.
- **Reference resolver** (`RefResolver`), **request identity** (`RequestIdentity`) and the web
  client's **log buffer** (`LogBuffer`).

`Wrappers`, `Strings` and `Ordering` hold shared helpers. `dafny verify dfyconfig.toml` checks everything.

## How to read the transaction

`start` is the remote map when the apply began, `plan` the new contents it asks for, and a
`Names` value gives each target its backup and temporary file. `ghost` fields record what no code
keeps: the remote operations that took effect (`ops`), the approvals spent (`spent`), the journal
writes lost to a failing database (`missed`) and the status writes the table refused (`refused`).
Claims about the journal's rows hold when no journal write was lost during the call, because the code
swallows or re-raises such a loss without compensating it. Outcome `Stopped` is a process that died at a
boundary of the rename loop, `Raised` a failure handler whose own bookkeeping raised. An apply is entered
with names that are clear (`NamesClear`): no backup or temporary name is itself a target, and no backup is a
temporary file.
Everything may fail at any time, except in stores made `reliable` (and approvals made `quiet`, which nobody else
uses): those say what the code achieves when nothing fails (`Flawless`).

## Where the code differs from what it says or is expected to do

- The step that "rechecks" digests immediately before the first rename compares bytes read in preflight with
  the expectation they already met; it can never fail (`Manager.Recheck`). What does detect a write
  in between is the read-back of the remote backup (`Manager.RemoteBackups`).
- The documentation of `is_protected_path` says approval comes before any backup or write; the code asks
  for it after backups and temporary files, before the first rename.
- If the journal write right after the first rename is lost, the status is one step short of Applied
  and the undo's RolledBack write is refused: the exception escapes although every file was restored
  (`RestoredButRefused`; `FailureExact` in `Manager.ApplyLocked` says exactly when; outcome `Raised`).
- Apply and rollback protect different paths. An apply takes the protected paths of every service of the project,
  or the configured ones without a registry; a rollback takes those of the changeset's own service, or none. So a
  change that needed an approval to apply may need none to roll back (`OthersPathRollsBackFreely`;
  `RollbackAsksForLess` says exactly when).
- A changeset whose undo failed ends Failed, which is final: `rollback` will not finish the undo.
- Two requests prepared against one digest can both be applied when a third apply restores the base in
  between (`NoLostUpdate`, `BaseCanComeBack`). That is the exact exception: without a third apply on the file it
  cannot happen unless the first changed nothing, and two creations never both succeed.
- `rollback` takes no per-path lock, so the concurrency results do not cover it. The lock
  results assume no such call and no writer outside the control plane.
- Vault file names end in a truncated hash of the path; the local-backup claim needs them distinct
  within a changeset (`BlobNamesDistinct`).
- A request that names a path twice gets as far as its second temporary file and fails there.
- An approval is consumed before its event is published: when the event is lost the apply fails with the
  approval spent (`ApprovalStore.Consume`, result `EventLost`).
- Gap recovery reads history above the cursor, or above the pruned part where that is longer, though it is
  described as rebuilding from durable history: a tool with no event above that floor vanishes
  (`RecoveryShowsEveryTool`), also one with an event above the cursor (`PrunedToolVanishes`).
- A message still being streamed when a snapshot is taken goes on in a second block (`RecoveredMessageSplits`).
- When nothing is stored any more, a recovery leaves the cursor where it was, and the next connection is refused
  again (`RecoveredIsAccepted`).
- Reducer and history projection disagree on tool names, errors and non-string summaries
  (`NamesAgree`, `ErrorsAgree` and `ProjectionsAgree` say exactly when), and on todos after a completed run
  (`TodosAgree`).
- A client without a cursor is never told of a gap; it starts where stored history starts.
- Each text delta is redacted again on its own, so a cut can make a number look like an address: the text shown is
  then not the text projected (`EndToEnd`, `CutMakesAnAddress`). Nothing marks a repeated projection of a message
  (`RepublishingDoubles`).
- Prepending older records to a full log buffer drops exactly those records (`PrependFillsRoom`).

## Model

| member | source | states |
|---|---|---|
| `ChangeManager.Manager.ApplyLocked` | apps/control-plane/src/incidentlens_control_plane/changes/manager.py:365-651 | The whole transaction, for any number of files and a fault at any step. `RemotePromise`: only targets, backups and temporary files are touched; every target is as it was, or new with its backup still holding the old bytes; applied means every target holds what its request makes of the bytes found (`Fulfilled`): a write its own content, an edit those bytes decoded, edited and encoded again; rolled back means every target is as at the start; both backups come before the first touch of a target. `JournalPromise`: the entry is new and filed under the target and service of the request, status and rows agree with the remote side, and every row is accurate when no journal write was lost. `ApprovalPromise`: once a target is touched and some path is protected, this call has spent the given approval with the digest of the intent for exactly these protected paths; nothing is spent before all temporary files are written. `FailureExact`: without a lost journal write, Failed after a rename means that some target still holds its new bytes, its original in the backup; and a status write is refused exactly when a target was touched, one journal write was lost and the status is still RemotelyBackedUp. And when nothing it works with fails (`Flawless`) and the request fits what is found (`Doable`), the apply ends with everything applied |
| `ChangeManager.Manager.Transact` | apps/control-plane/src/incidentlens_control_plane/changes/manager.py:365-651 | The same promises for any backup and temporary names that do not collide with targets or each other |
| `ChangeManager.Manager.Prologue` | apps/control-plane/src/incidentlens_control_plane/changes/manager.py:394-608 | Everything before the first rename: it leaves the targets alone, and when it succeeds the files match the request, every file is backed up twice, every temporary file holds the planned bytes and the approval gate is passed |
| `ChangeManager.Manager.Preflight` | apps/control-plane/src/incidentlens_control_plane/changes/manager.py:394-451 | Succeeds only when creations find nothing and every other file has the expected digest, and then returns the bytes found |
| `ChangeManager.Manager.ComputeNew` | apps/control-plane/src/incidentlens_control_plane/changes/manager.py:453-462 | Every path gets what its last request asks for: a write its own content, an edit the bytes found, decoded, with exactly the matches replaced, and encoded again; refused exactly when some request cannot be met |
| `ChangeManager.Manager.ValidateAll` | apps/control-plane/src/incidentlens_control_plane/changes/manager.py:464-469 | The loop over validation results equals their specification and fails exactly when some checked content does not parse |
| `ChangeManager.Manager.Begin` | apps/control-plane/src/incidentlens_control_plane/changes/manager.py:394-487 | Steps 1 to 4 and the DRAFT entry: either no entry exists, or a new one filed under the target and service of the request, with one row per request and nothing journalled applied |
| `ChangeManager.Manager.LocalBackups` | apps/control-plane/src/incidentlens_control_plane/changes/manager.py:489-517 | After success every file that existed has a vault blob that opens to its original bytes, provided no two paths share the truncated blob name, and every row names its blob |
| `ChangeManager.Manager.RemoteBackups` | apps/control-plane/src/incidentlens_control_plane/changes/manager.py:519-542 | Nothing is assumed about what the targets hold by now: success shows that every file found at preflight still held the preflight bytes, so any write to one of them in between makes the step fail; the copies are in the operation log and the backups hold the originals |
| `ChangeManager.Manager.WriteTemps` | apps/control-plane/src/incidentlens_control_plane/changes/manager.py:544-562 | Never writes over an existing file; after success every temporary file holds the planned bytes and no path was named twice |
| `ChangeManager.Manager.Gate` | apps/control-plane/src/incidentlens_control_plane/changes/manager.py:581-601 | Passes only with no protected path, or after this call consumed the given approval with the digest of the intent for exactly these paths |
| `ChangeManager.Manager.Recheck` | apps/control-plane/src/incidentlens_control_plane/changes/manager.py:800-817 | After a successful preflight the recheck before the first rename cannot fail: it compares cached bytes |
| `ChangeManager.Manager.RenameAll` | apps/control-plane/src/incidentlens_control_plane/changes/manager.py:610-624 | At every boundary of the loop the files journalled applied are exactly the renamed ones, a prefix of the path order, with their backups intact; after a failure the journal is behind only if one of its writes was lost |
| `ChangeManager.Manager.UndoAll` | apps/control-plane/src/incidentlens_control_plane/changes/manager.py:670-693 | The reverse loop goes on after a failure; without a lost journal write the failures it reports are exactly the paths that still hold new bytes, and no failure is reported exactly when everything was put back and no write lost |
| `ChangeManager.Manager.HandleFailure` | apps/control-plane/src/incidentlens_control_plane/changes/manager.py:653-726 | Reports rolled back only when nothing is left renamed; otherwise the files still journalled applied are exactly those still holding new bytes. `Handled`: without a lost write Failed after a rename means that something is left, and the final status write is refused exactly when nothing is left, no write was lost and Applied was never reached |
| `ChangeManager.Manager.UndoRenames` | apps/control-plane/src/incidentlens_control_plane/changes/manager.py:653-726 | The same once renames may have begun, for the targets that still hold new bytes (`LeftRenamed`): after a refusal the exception escapes although every target is as at the start and nothing is journalled applied |
| `ChangeManager.Manager.Commit` | apps/control-plane/src/incidentlens_control_plane/changes/manager.py:610-651 | Renames, and the undo when one fails, keep all promises |
| `ChangeManager.Manager.BoundaryKeepsPromises` | apps/control-plane/src/incidentlens_control_plane/changes/manager.py:610-636 | A loop that ran to its end, or a process that died at a loop boundary, leaves the journal exact |
| `ChangeManager.Manager.FailureKeepsPromises` | apps/control-plane/src/incidentlens_control_plane/changes/manager.py:695-726 | What the failure handler leaves satisfies the promises, for every outcome it reports |
| `ChangeManager.Manager.NothingRenamed` | apps/control-plane/src/incidentlens_control_plane/changes/manager.py:642-651 | Failing before the first rename leaves every target untouched |
| `ChangeManager.Manager.Rollback` | apps/control-plane/src/incidentlens_control_plane/changes/manager.py:265-328 | Refused outside Applied and Validated; without an approval it goes through only when no row is protected by name, by place or by the changeset's own service, and a given approval is spent once; on success every file is restored and the operations done are exactly the plan; a stopped attempt leaves an accurate journal, and what it did plus what remains is what remained before. When nothing fails, the changeset is in force and the approval can be spent or none is needed, it succeeds |
| `ChangeManager.Manager.RestoreRows` | apps/control-plane/src/incidentlens_control_plane/changes/manager.py:302-326 | The reverse loop over the rows, with the journal accurate after each of them |
| `ChangeManager.Manager.InterruptsService` | apps/control-plane/src/incidentlens_control_plane/changes/manager.py:330-359 | Never says no when some changed file is protected by name, by place or by the changeset's own service; says yes without such a file only when the project record cannot be loaded |
| `ChangeManager.Manager.Verify` | apps/control-plane/src/incidentlens_control_plane/changes/manager.py:246-263 | Ends Verified or Failed, from Applied or Validated only; the status table never refuses its steps |
| `ChangeManager.Manager.ApplyLeavesRollbackReady` | apps/control-plane/src/incidentlens_control_plane/changes/manager.py:302-328 | Any boundary an apply ends or dies at, after the first rename, is one a rollback can start from |
| `ChangeHistory.RunCalls` | apps/control-plane/src/incidentlens_control_plane/changes/manager.py:194-328 | Any sequence of applies and rollbacks, with other callers at the approvals and anyone at the remote files in between: every call that changed something protected has spent its approval for its own intent, and no two such calls the same approval |
| `ChangeHistory.ApplyThenRollBack` | apps/control-plane/src/incidentlens_control_plane/changes/manager.py:302-328 | An apply that ended or died at any boundary, and any number of rollback attempts after it: what they did and what remains add up to that boundary's plan, and once one succeeds every target is as before the apply and each renamed file was restored exactly once. When nothing fails, a doable apply is applied in full, and the first attempt that needs no approval rolls it back |
| `ChangeSpec.RollbackAsksForLess` | apps/control-plane/src/incidentlens_control_plane/changes/manager.py:330-359 | A rollback never asks for an approval the apply would not have needed; it asks wherever the apply does, except exactly for a path that only another service, or only the configuration, protects |
| `ChangeSpec.OthersPathRollsBackFreely` | apps/control-plane/src/incidentlens_control_plane/changes/manager.py:903-924 | Such a path exists: one service changes a file another one protects |
| `RollbackSpec.RetriesRestoreOnce` | apps/control-plane/src/incidentlens_control_plane/changes/manager.py:302-328 | However often a rollback is stopped and retried, the attempts together perform a prefix of one plan, and the whole plan once nothing is journalled applied |
| `RollbackSpec.PlanRestoresApplied` | apps/control-plane/src/incidentlens_control_plane/changes/manager.py:302-321 | The plan restores exactly the applied files |
| `RollbackSpec.PlanRestoresOnce` | apps/control-plane/src/incidentlens_control_plane/changes/manager.py:302-321 | The plan restores no file twice |
| `RollbackSpec.RestoreRowStep` | apps/control-plane/src/incidentlens_control_plane/changes/manager.py:305-321 | Restoring one row returns its file to the original and keeps every other row accurate |
| `ChangeSpec.RenameStep` | apps/control-plane/src/incidentlens_control_plane/changes/manager.py:611-616 | One rename moves exactly its target to the planned bytes and keeps every other target, temporary file and backup |
| `ChangeSpec.UndoStep` | apps/control-plane/src/incidentlens_control_plane/changes/manager.py:670-691 | One restore returns exactly its target to the original |
| `ChangeSpec.CopiesCameFirst` | apps/control-plane/src/incidentlens_control_plane/changes/manager.py:519-542 | All copies precede the first touch of a target |
| `ChangeSpec.AccurateRows` | apps/control-plane/src/incidentlens_control_plane/changes/manager.py:611-624 | When the journalled set is the set of renamed files, every row is accurate: applied exactly when the new bytes are in force, and then the backup it names holds the original |
| `ChangeSpec.PathOrderExact` | apps/control-plane/src/incidentlens_control_plane/changes/manager.py:610-615 | Sorting the temporary paths visits every target once |
| `ChangeSpec.PlannedExactly` | apps/control-plane/src/incidentlens_control_plane/changes/manager.py:394-469 | A request passes steps 1 to 4 exactly when every file fits what is found, asks for some content and that content parses where it must; stated by path, digest, text and bytes alone |
| `ChangeSpec.NewBytesMeans` | apps/control-plane/src/incidentlens_control_plane/changes/manager.py:453-462 | The new bytes of one request: the content of a write, and for an edit the encoding of the text that replacing exactly the matches gives |
| `ChangeSpec.PreflightAt` | apps/control-plane/src/incidentlens_control_plane/changes/manager.py:394-451 | A successful preflight means every single request matches what was found |
| `ChangeSpec.ValidationsAt` | apps/control-plane/src/incidentlens_control_plane/changes/manager.py:776-790 | An accepted plan has no content that fails its parser |
| `ChangeSpec.ValidationMeans` | apps/control-plane/src/incidentlens_control_plane/changes/manager.py:776-790 | A content is refused exactly when its name ends, in any case, in .py, .json or .toml after something else, and its parser refuses it; and it is reported as not validated exactly without such an ending |
| `ChangeSpec.ClearNamesSeparate` | apps/control-plane/src/incidentlens_control_plane/changes/manager.py:523-526 | Backup and temporary names of distinct paths never collide among themselves |
| `ChangeTypes.BackupPathInjective` | apps/control-plane/src/incidentlens_control_plane/changes/manager.py:523-526 | Distinct targets have distinct backups |
| `ChangeTypes.TempPathInjective` | apps/control-plane/src/incidentlens_control_plane/changes/manager.py:545-548 | Distinct targets have distinct temporary files |
| `ChangeTypes.BackupBeside` | apps/control-plane/src/incidentlens_control_plane/changes/manager.py:523-526 | A backup lies in the directory of its target |
| `ChangeTypes.TempBeside` | apps/control-plane/src/incidentlens_control_plane/changes/manager.py:545-548 | A temporary file lies in the directory of its target, so the rename stays within one directory |
| `ChangeTypes.IntentNamesExactlyThePaths` | apps/control-plane/src/incidentlens_control_plane/changes/manager.py:101-122 | Two protected-path intents are equal exactly when changeset, target, service and the collection of paths are, in whatever order the paths are listed |
| `ChangeManager.Manager.DigestsNamed` | apps/control-plane/src/incidentlens_control_plane/changes/manager.py:285-300 | Field by field what an approval must have been granted for: the rollback of this changeset on its own target and service; or the change of exactly the protected paths of the request, in ascending order |
| `ChangeManager.Manager.ApprovalsApart` | apps/control-plane/src/incidentlens_control_plane/changes/manager.py:285-300 | With a hash that tells intents apart, an approval for a rollback is good for that changeset on its target and service only, one for an apply for that collection of protected paths only, and none for both kinds |
| `PathRules.ProtectedExactly` | apps/control-plane/src/incidentlens_control_plane/changes/manager.py:125-151 | A path is protected exactly when its components lie at or below a protected root or `/etc`, when its last component spells, in any case, one of the configuration or compose file names, or when it is a unit file below `/lib/systemd` |
| `PathRules.CoversExactly` | apps/control-plane/src/incidentlens_control_plane/changes/manager.py:582-601 | The intent of a request covers each of its protected paths as often as the request names it, and nothing else |
| `ChangeManager.Manager.VerdictMeans` | apps/control-plane/src/incidentlens_control_plane/changes/manager.py:246-263 | The verdicts that fail a changeset: blank ones, and four words in any case between white space |
| `ChangeJournal.Journal.Transition` | apps/control-plane/src/incidentlens_control_plane/changes/store.py:365-403 | A status is written only if the predecessor table allows it; refused and lost writes change nothing |
| `ChangeTypes.CourseExact` | apps/control-plane/src/incidentlens_control_plane/changes/types.py:24-43 | The courses the predecessor table allows from Draft on are exactly those along the one chain to Verified, left for Failed anywhere before its end or for RolledBack once applied; so nothing is applied before both backups, and nothing follows an end |
| `ChangeJournal.Journal.UpdateRow` | apps/control-plane/src/incidentlens_control_plane/changes/store.py:231-282 | One row of one changeset is patched, or nothing changes |
| `ChangeJournal.Journal.Create` | apps/control-plane/src/incidentlens_control_plane/changes/store.py:147-229 | A new entry needs a new changeset id and new row ids |
| `BackupVault.OpenInvertsBlob` | apps/control-plane/src/incidentlens_control_plane/changes/backup.py:84-142 | What the vault stores it reads back, for all metadata, nonces and contents, when decryption inverts encryption |
| `BackupVault.UnpackInvertsPack` | apps/control-plane/src/incidentlens_control_plane/changes/backup.py:84-107 | The four-byte length prefix round-trips |
| `BackupVault.Vault.Load` | apps/control-plane/src/incidentlens_control_plane/changes/backup.py:109-142 | Returns only content with the digest the reference carries |
| `BackupVault.Vault.Store` | apps/control-plane/src/incidentlens_control_plane/changes/backup.py:57-107 | Replaces only the named blob, which then opens to the content |
| `ApplyConcurrency.EveryRunCanFinish` | apps/control-plane/src/incidentlens_control_plane/changes/manager.py:220-244 | For any number of applies and keys no interleaving deadlocks: some apply can step exactly as long as one has not returned, and no run has more steps than the applies together |
| `ApplyConcurrency.MutualExclusion` | apps/control-plane/src/incidentlens_control_plane/changes/manager.py:220-244 | Over every run, two applies that share a lock key are never both inside the transaction body |
| `ApplyConcurrency.AcquisitionOrderAscends` | apps/control-plane/src/incidentlens_control_plane/changes/manager.py:220-231 | The keys are taken once each in strictly ascending order |
| `ApplyConcurrency.StepKeepsLocks` | apps/control-plane/src/incidentlens_control_plane/changes/manager.py:229-244 | Every step keeps the lock table in agreement with what each apply holds |
| `ApplyConcurrency.ChainEnds` | apps/control-plane/src/incidentlens_control_plane/changes/manager.py:229-231 | Whoever blocks an apply waits, if at all, for a greater key, so following the holders reaches an apply that can step |
| `ApplyConcurrency.StepRanksTotalLower` | apps/control-plane/src/incidentlens_control_plane/changes/manager.py:229-244 | Every step brings the system closer to its end |
| `ApplyConcurrency.RunsStaySettled` | apps/control-plane/src/incidentlens_control_plane/changes/manager.py:220-244 | Over every interleaving: what an apply has read is what the last visitor of the file left, and every visit began where the one before it ended |
| `ApplyConcurrency.NoLostUpdate` | apps/control-plane/src/incidentlens_control_plane/changes/manager.py:406-446 | Two applied requests prepared against the same digest: the first left the file as it was, or a third apply put the common base back in between |
| `ApplyConcurrency.NoLostUpdateOfTwo` | apps/control-plane/src/incidentlens_control_plane/changes/manager.py:406-446 | Without a third apply on the file the first of the two changed nothing |
| `ApplyConcurrency.NoDoubleCreate` | apps/control-plane/src/incidentlens_control_plane/changes/manager.py:406-417 | Two creations of one absent path are never both applied |
| `ApplyConcurrency.BaseCanComeBack` | apps/control-plane/src/incidentlens_control_plane/changes/manager.py:406-446 | The exception is real: for any contents there is a run in which a third apply restores the base and both others are applied |
| `TextEdits.FindOccurrences` | apps/control-plane/src/incidentlens_control_plane/changes/manager.py:765-774 | Returns exactly all match positions, overlapping ones included, in order |
| `TextEdits.OccurrencesExact` | apps/control-plane/src/incidentlens_control_plane/changes/manager.py:765-774 | The specification of the search lists a position exactly when the text matches there |
| `TextEdits.ApplyEdits` | apps/control-plane/src/incidentlens_control_plane/changes/manager.py:732-763 | The loops answer a text exactly when every replacement matches somewhere, as often as it expects, and no two matches overlap, and then the text with exactly the matches replaced; it is refused for a count exactly when some replacement matches nowhere or not as often as it expects |
| `TextEdits.EditedMeans` | apps/control-plane/src/incidentlens_control_plane/changes/manager.py:732-763 | An edit succeeds with a text exactly when that text is the original with every match of every replacement, and nothing else, replaced; stated by match positions and the fields of the replacements |
| `TextEdits.CollectedAsked` | apps/control-plane/src/incidentlens_control_plane/changes/manager.py:744-750 | What collection gathers, counted: for every replacement and every position where its old text matches exactly one range there with its new text, and nothing else |
| `TextEdits.CountErrorsExact` | apps/control-plane/src/incidentlens_control_plane/changes/manager.py:744-749 | Refused for a count exactly when the number of match positions of some replacement is zero or not the expected one |
| `TextEdits.FirstUnfitDecides` | apps/control-plane/src/incidentlens_control_plane/changes/manager.py:744-749 | The first replacement whose number of match positions is zero, or not the one it expects, decides which of the two errors is reported |
| `TextEdits.OverlapAsked` | apps/control-plane/src/incidentlens_control_plane/changes/manager.py:751-754 | For non-empty old texts whose counts fit: refused as overlapping exactly when two of the matches asked for overlap |
| `TextEdits.PlacedAt` | apps/control-plane/src/incidentlens_control_plane/changes/manager.py:756-763 | In the result each replaced match has become its new text, moved by the changes of length before it |
| `TextEdits.KeptAt` | apps/control-plane/src/incidentlens_control_plane/changes/manager.py:756-763 | In the result every character outside all matches is still there, moved by the changes of length before it |
| `TextEdits.ResultLength` | apps/control-plane/src/incidentlens_control_plane/changes/manager.py:756-763 | The result is as long as the text with the changes of length of all matches; nothing else is in it |
| `TextEdits.SpliceIsHighestFirst` | apps/control-plane/src/incidentlens_control_plane/changes/manager.py:756-763 | The one-pass splice equals replacing the ranges one after the other from the highest offset |
| `TextEdits.AdjacentCheckExact` | apps/control-plane/src/incidentlens_control_plane/changes/manager.py:751-754 | On sorted ranges the adjacent check passes exactly when the ranges are pairwise disjoint |
| `TextEdits.OverlapExact` | apps/control-plane/src/incidentlens_control_plane/changes/manager.py:732-763 | For non-empty needles an edit is refused as overlapping exactly when two located ranges overlap |
| `TextEdits.EditOrderIrrelevant` | apps/control-plane/src/incidentlens_control_plane/changes/manager.py:732-763 | For non-empty needles acceptance and result do not depend on the order of the replacements |
| `Approvals.OneDecision` | apps/control-plane/src/incidentlens_control_plane/approvals/store.py:677-743 | Over every interleaving of callers at most one decision on an approval succeeds |
| `Approvals.OneConsumption` | apps/control-plane/src/incidentlens_control_plane/approvals/store.py:768-801 | Over every interleaving at most one consumption succeeds |
| `Approvals.ConsumedAfterApproved` | apps/control-plane/src/incidentlens_control_plane/approvals/store.py:768-801 | A consumption succeeds only after an approval, both strictly before expiry |
| `Approvals.RejectedNeverConsumed` | apps/control-plane/src/incidentlens_control_plane/approvals/store.py:677-743 | A rejected approval is never consumed |
| `Approvals.RunEvolves` | apps/control-plane/src/incidentlens_control_plane/approvals/store.py:677-801 | No caller ever takes back a decision, a consumption, a digest or an expiry |
| `Approvals.DownstreamLeavesDecision` | apps/control-plane/src/incidentlens_control_plane/approvals/store.py:745-766 | Over any run, leaving out all downstream bookkeeping gives the same rows, decisions and consumptions |
| `Approvals.LogStaysAccurate` | apps/control-plane/src/incidentlens_control_plane/approvals/store.py:768-801 | Every statement of every caller keeps the log of consumptions accurate: consumed approvals only, each once, with the digest of its row |
| `Approvals.ApprovalStore.Decide` | apps/control-plane/src/incidentlens_control_plane/approvals/store.py:677-743 | Read, check and conditional update with other callers in between: success means the row was pending and in time; expired is reported only to a caller who really was too late. With nobody else at the table the row keeps every column but the decision, all other rows stay, and an approved row can be spent at every instant before its expiry |
| `Approvals.StampsFollowStatus` | apps/control-plane/src/incidentlens_control_plane/approvals/store.py:677-801 | Over every run from the empty table a row carries a consumption stamp exactly when it is consumed, and a decision exactly when it is decided |
| `Approvals.ApprovedIsSpendable` | apps/control-plane/src/incidentlens_control_plane/approvals/store.py:712-801 | Over every run: after a successful approval, with no successful consumption of it since, the row can be spent with its own digest at every instant before expiry |
| `Approvals.ApprovalStore.Consume` | apps/control-plane/src/incidentlens_control_plane/approvals/service.py:270-314 | The digest checked is the one requested; success, and also a lost event after it, means this call is the one that spent the approval |
| `Approvals.ApproveThenSpend` | apps/control-plane/src/incidentlens_control_plane/approvals/store.py:677-801 | With nobody else at the table, approving a pending row in time and consuming it with its digest before expiry both succeed |
| `Stamps.TextOrderIsTimeOrder` | apps/control-plane/src/incidentlens_control_plane/approvals/store.py:541-546 | Stamps printed with no or six fraction digits compare as text exactly as they compare in time |
| `Stamps.IsoFormatInjective` | apps/control-plane/src/incidentlens_control_plane/approvals/store.py:541-546 | Different instants print differently |
| `KeysetPaging.Table.List` | apps/control-plane/src/incidentlens_control_plane/approvals/store.py:476-504 | While others insert rows and update the columns the filter reads: the pages together are in strict key order, hold no row twice, only rows that matched in some state since the start, and every row that matched throughout; with no other writer they are exactly the query. The loop terminates |
| `KeysetPaging.Table.ListPage` | apps/control-plane/src/incidentlens_control_plane/approvals/store.py:506-571 | At most the given number of matching rows in strict order; a matching row above the cursor is left out only if the page is full and the row comes after all of it, and there are more exactly when one is left out |
| `KeysetPaging.Table.ListMessages` | apps/control-plane/src/incidentlens_control_plane/agent_sessions/store.py:331-369 | The two error cases, each exactly; otherwise such a page of the messages of the session above the cursor row, which need not belong to it |
| `KeysetPaging.Table.FollowMessages` | apps/control-plane/src/incidentlens_control_plane/agent_sessions/store.py:331-369 | Following the last message id page by page lists the session in order and without repeats, with every message that was there throughout, even while rows are inserted and updated |
| `KeysetPaging.QueryExact` | apps/control-plane/src/incidentlens_control_plane/approvals/store.py:506-571 | The ordered result holds exactly the matching rows, strictly ascending |
| `KeysetPaging.ListedStep` | apps/control-plane/src/incidentlens_control_plane/approvals/store.py:487-504 | A page extends the list up to its own last key without repeating a row or skipping one that matched throughout |
| `KeysetPaging.ResultRest` | apps/control-plane/src/incidentlens_control_plane/approvals/store.py:536-546 | The result above the last row of a page is what the page left over |
| `KeysetPaging.OldestFirst` | apps/control-plane/src/incidentlens_control_plane/approvals/store.py:506-571 | Ordering by stored text is ordering by time, oldest first, then by id |
| `CliProjection.ProjectionsAgree` | apps/cli/src/stream/session-synchronizer.ts:600-642 | Replaying a log and projecting its history in any order show the same tools in the same order with the same status; the summaries agree exactly when no tool was last given a summary that is not a string |
| `CliProjection.NamesAgree` | apps/cli/src/stream/session-synchronizer.ts:600-642 | The tool names of the two agree exactly when, for every tool, the name its first event gives is the last one any of its events gives |
| `CliProjection.ErrorsAgree` | apps/cli/src/stream/session-synchronizer.ts:600-642 | The errors agree exactly when every tool's last event carries as its error the last text its events hold in error or redacted error |
| `CliProjection.TodosAgree` | apps/cli/src/stream/session-synchronizer.ts:645-669 | Replayed and projected todos agree exactly when no run completed after the last todo list, or that list was completed anyway |
| `CliProjection.ProjectToolEvents` | apps/cli/src/stream/session-synchronizer.ts:600-642 | The map filled in place equals the projection; `CliMeaning.HistoryRows` says what that shows |
| `CliProjection.AnyOrderIsTheLog` | apps/cli/src/stream/session-synchronizer.ts:610-610 | Sorting by sequence recovers the log from any permutation of it |
| `CliProjection.OneRowPerTool` | apps/cli/src/stream/session-synchronizer.ts:603-642 | A tool has at most one row |
| `CliProjection.ReplayViews` | apps/cli/src/state/reducer.ts:443-509 | The reducer keeps per tool the latest status and the last summary of any kind, in order of first event |
| `CliMeaning.HistoryRows` | apps/cli/src/stream/session-synchronizer.ts:600-642 | For every log, in whatever order it arrives: one row for every tool some event speaks of, in order of first events; its status has the name the last event about it carries (proposed, running, succeeded, or the text of a status change if that is failed, succeeded, waiting_approval or uncertain, else running); name, summary and error are the last texts its events give |
| `CliMeaning.TranscriptRows` | apps/cli/src/state/reducer.ts:443-509 | The same for the replayed transcript, whose name is the one the first event gives, whose error is that of the last event, and whose summary the last one of any kind |
| `CliMeaning.ReplayStatus` | apps/cli/src/state/reducer.ts:443-509 | From any state: the last event about a tool decides the status its row ends with, except that a proposal or start is shown uncertain once the operation is over |
| `CliMeaning.TodosMean` | apps/cli/src/state/reducer.ts:240-261 | Both projections show the readable elements of the last todo list in its order, each under the name of its status or pending; in the transcript all of them are completed exactly when a run has completed since |
| `CliMeaning.ReplayCounts` | apps/cli/src/state/reducer.ts:327-350 | From any state a replay adds a pending approval for every request and the rounds and tokens of every completed round, and loses none |
| `CliProjection.NamesMayDiffer` | apps/cli/src/state/reducer.ts:499-506 | A log for which the names differ |
| `CliProjection.ErrorsMayDiffer` | apps/cli/src/state/reducer.ts:483-490 | A log for which the errors differ |
| `CliReducer.ReplayStandsAtLast` | apps/cli/src/state/reducer.ts:198-208 | After a sorted log the state stands at its last sequence |
| `CliSync.SessionSynchronizer.Synchronize` | apps/cli/src/stream/session-synchronizer.ts:278-323 | Over any number of connections, cuts, repeated events, slow clients, gaps and pruned history the cursor never goes back, and the projection is the fold of the history of bases over the log: it starts from the opening state, each gap replaces it by a snapshot, and every known event above is reduced once and in order. One link per connection says what it met, how far its stream came and what it left, each beginning where the one before it ended |
| `CliSync.SessionSynchronizer.Connection` | apps/cli/src/stream/session-synchronizer.ts:278-323 | One connection. A refused one meets a gap; an accepted one streams from the cursor or from where the stored history begins, exactly as far as its frames go or to the end of the log it began with, and meets a gap at its end exactly when the client is too slow. A gap adds one snapshot, taken at the cursor reached, with what this connection found, or a failed request changes nothing. Without a gap the base stays |
| `CliSync.EverySnapshotHasItsGap` | apps/cli/src/stream/session-synchronizer.ts:278-323 | Over any chain of connections every snapshot belongs to a connection that was refused or too slow, with the messages and approvals that one found |
| `CliSync.SessionSynchronizer.OnEvent` | apps/cli/src/stream/session-synchronizer.ts:278-299 | Old and repeated events change nothing; a new one is reduced once and becomes the cursor |
| `CliSync.SessionSynchronizer.RecoverFromGap` | apps/cli/src/stream/session-synchronizer.ts:388-423 | The projection is replaced by the snapshot of what is stored above the floor, and the cursor is the last sequence it covers. `BuiltFrom` says what it shows apart from the code: the messages in order, every tool of that history as its events say, the todos of its last list, the given approvals and the usage there was. Which tools it lacks and whether the next connection is refused is stated exactly; a failed request changes nothing |
| `CliSync.SessionSynchronizer.FetchAllEvents` | apps/cli/src/stream/session-synchronizer.ts:495-511 | The pages together are exactly the stored events above the cursor, although the log grows between pages |
| `CliSync.SessionSynchronizer.AuthoritativeSequence` | apps/cli/src/stream/session-synchronizer.ts:454-468 | The maximum of the cursor and the sequences |
| `CliSync.Server.ListEvents` | apps/control-plane/src/incidentlens_control_plane/events/store.py:125-183 | A page is the next slice of the stored log, with the right more-flag |
| `CliSync.SessionSynchronizer.Connect` | apps/control-plane/src/incidentlens_control_plane/streams/cli.py:117-145 | When the server sends no gap, no stored event between cursor and replay start is skipped |
| `CliSync.NextEvent` | apps/cli/src/stream/session-synchronizer.ts:278-299 | Moving the cursor over one more known event adds exactly that event |
| `CliSync.RecoveryShowsEveryTool` | apps/cli/src/stream/session-synchronizer.ts:388-423 | A recovery shows every tool of the session exactly when every tool has an event above the floor: the old cursor, or the end of the pruned history where that is later |
| `CliSync.PrunedToolVanishes` | apps/cli/src/stream/session-synchronizer.ts:388-423 | A log in which a tool has an event above the old cursor and still vanishes, because that event is pruned |
| `CliSync.RecoveredIsAccepted` | apps/control-plane/src/incidentlens_control_plane/streams/cli.py:117-145 | After a recovery the next connection is not refused exactly when it would not have been anyway or some event is still stored |
| `TextChunks.RecoveredMessageSplits` | apps/cli/src/stream/session-synchronizer.ts:398-412 | After a recovery a message is shown in two blocks exactly when the snapshot holds it and another delta for it follows: a snapshot files it under its own id, a delta names no block |
| `TextChunks.PublishMessage` | apps/control-plane/src/incidentlens_control_plane/agent_sessions/service.py:299-314 | The loop over offsets publishes one delta for every 160 characters of the text, in order and each redacted on its own, and then the completion; nothing else |
| `TextChunks.PublishedIsShown` | apps/control-plane/src/incidentlens_control_plane/agent_sessions/service.py:299-314 | From the loop to the screen: where what it published arrives in order, among anything for other messages, the client shows exactly one block for the message, holding the redacted pieces joined, and the text itself where redaction keeps every piece; the only completion is the last of its events, and the block is final from it on and not before |
| `TextChunks.ChunksJoin` | apps/control-plane/src/incidentlens_control_plane/agent_sessions/service.py:299-306 | Cutting into chunks of at most 160 characters loses nothing and makes no empty chunk |
| `TextChunks.ReplayMerges` | apps/cli/src/state/reducer.ts:384-421 | Whatever else the log holds and however deltas of messages interleave, the transcript has one block per message in order of first delta, with its deltas joined in log order |
| `TextChunks.EndToEnd` | apps/control-plane/src/incidentlens_control_plane/agent_sessions/service.py:299-314 | The client shows one block per message holding the chunks as published; that is the projected text exactly when the redacted chunks join to it, and, where redaction shortens no chunk, exactly when it changes none |
| `TextChunks.RedactedJoin` | apps/control-plane/src/incidentlens_control_plane/agent_sessions/service.py:299-306 | Redaction that shortens no chunk keeps the whole text only by keeping every chunk |
| `TextChunks.CutMakesAnAddress` | apps/control-plane/src/incidentlens_control_plane/logs/redaction.py:53-53 | With the address rule: a text redaction leaves alone as a whole, and a cut at 160 characters after which its first chunk ends in an address, so that the text shown is another one |
| `TextChunks.RepublishingDoubles` | apps/control-plane/src/incidentlens_control_plane/agent_sessions/service.py:285-314 | Projecting the same message again shows its text twice |
| `RefResolver.ResolveIsUnfolding` | scripts/check_product_contracts.py:45-69 | A cycle is reported exactly when the unfolding of the references never ends; otherwise result or error is the unfolding |
| `RefResolver.ResolvedIsFree` | scripts/check_product_contracts.py:45-69 | A successful resolution leaves no string `$ref` at any position reached through dictionaries |
| `RefResolver.Resolver.Resolve` | scripts/check_product_contracts.py:45-69 | The recursive method with its shared set of open references terminates on every document, computes the specification and restores the set on success |
| `RefResolver.Resolver.ResolveAll` | scripts/check_product_contracts.py:71-82 | Every schema is resolved as if alone, until the first error |
| `RefResolver.FiniteIsNotCyclic` | scripts/check_product_contracts.py:61-65 | A finite unfolding never meets an open reference again |
| `RefResolver.ResolvedUnfolds` | scripts/check_product_contracts.py:45-69 | Unless it reports a cycle the resolver computes the unfolding with as many steps as there are references left to open |
| `RefResolver.SiblingsWin` | scripts/check_product_contracts.py:66-68 | A sibling of a reference wins over what the reference brings, and everything else of both stays |
| `RefResolver.TargetExact` | scripts/check_product_contracts.py:49-60 | A reference leads to the dictionary of that name among the schemas or the responses and nowhere else, and each of the two errors is reported exactly |
| `RequestIdentity.IdentityExact` | apps/control-plane/src/incidentlens_control_plane/api/idempotency.py:87-108 | With no separator in methods and route keys, equal material means equal method, route key, path parameters in any order, and body; and conversely |
| `RequestIdentity.SeparatorCollides` | apps/control-plane/src/incidentlens_control_plane/api/idempotency.py:107-107 | With the separator in one of them different mutations collide |
| `RequestIdentity.ParamsSelfDelimiting` | apps/control-plane/src/incidentlens_control_plane/api/idempotency.py:102-106 | The parameter array determines where it ends and what it held |
| `RequestIdentity.ReadInvertsQuoted` | apps/control-plane/src/incidentlens_control_plane/api/idempotency.py:102-106 | Reading a JSON string gives back the string and what follows it |
| `RequestIdentity.ReadInvertsEscape` | apps/control-plane/src/incidentlens_control_plane/api/idempotency.py:102-106 | Every escaped character reads back, surrogate pairs included |
| `LogBuffer.BoundedAndConserved` | apps/web/src/logs/log-buffer.ts:26-51 | Over all action sequences the length stays within the limit, and dropped plus held equals accepted since the last clear |
| `LogBuffer.AppendsKeepTheLatest` | apps/web/src/logs/log-buffer.ts:40-46 | Without prepends and clears the buffer is exactly the last accepted records |
| `LogBuffer.UnreadCountsArrivals` | apps/web/src/logs/log-buffer.ts:40-50 | While the stream is paused the unread count grows by every record that arrives at its end |
| `LogBuffer.NothingUnreadUnlessPaused` | apps/web/src/logs/log-buffer.ts:30-50 | After any actions a stream that is not paused has nothing unread |
| `LogBuffer.IdsStayUnique` | apps/web/src/logs/log-buffer.ts:38-40 | Ids stay unique as long as no batch repeats one |
| `LogBuffer.BatchIsOneByOne` | apps/web/src/logs/log-buffer.ts:36-51 | A batch of new records equals one-by-one appends except for the cursor, and the cursors agree exactly when the last record has one or the batch brings none that differs |
| `LogBuffer.PrependFillsRoom` | apps/web/src/logs/log-buffer.ts:40-49 | Prepending keeps only as many records as there is room for; a full buffer drops them all |

## Left out

- Remote transport, path policy, `realpath`, symbolic links and file modes: a path is taken as canonical, and `Lstat` answers `Unreadable` where the source would raise for them.
- Operations that take effect and then report a timeout (the `uncertain` flag), task cancellation, and a crash between a rename and its journal write: the code promises no atomicity there.
- A missing approval service: the gate is modelled with one configured.
- AES-GCM, SHA-256, the text codec and the Python, JSON and TOML parsers: functions in `Env` and `Crypto`. Decryption inverts encryption where `Sound` is required; the hash is collision-free where `CollisionFree` is required.
- Approval intents: the separate hash of the joined paths is a function of the paths and is not repeated in `Intent`.
- ApplyConcurrency.Step: one apply may rename or undo its keys in any order, and computes any contents at all; the source's orders are among these.
- ChangeManager.Manager.Transact: no one else writes remote files while one call runs; `ChangeHistory.RunCalls` lets anyone write between calls, and `ApplyConcurrency` has a smaller body of its own for applies that run at the same time.
- ApplyConcurrency.NoLostUpdate: does not cover `rollback()`, which takes no locks, nor writers outside the control plane.
- CliSync.SessionSynchronizer.Synchronize: heartbeat timers and promise scheduling are left out (a heartbeat timeout during a recovery can reconnect at the old cursor); retention drops history only between connections; the server closes after a gap frame; a connection is a script of frames, and a client too slow for its queue gets a gap at the end of its script.
- CliSync.SessionSynchronizer.RecoverFromGap: messages, approvals and the active operation of the snapshot are parameters; the requests for them run beside the one for events, and a message finished in between is not modelled. Removing repeated events by id is left out because the pages never repeat one.
- CliSync.Server: one log stands for the events of one filter. The live part of a connection widens its filter once the session is bound to an investigation, while the replay uses the filter of the connect; events that only the wider filter lets through are not modelled.
- CliReducer.Reduce: connection status, overlays, input, activity, operation updates and the contents of approval cards are left out; a payload does not override envelope fields of the same name. A tool name that is not a string is shown as "unknown".
- Message paging by offset in the terminal client, and the target join of the approvals list, which is a filter on a column here. Rows are never deleted.
- ChangeManager.Manager.CleanTemps: promises only that it touches nothing but temporary files; removal is best effort in the source.
- Changeset verification plans, diff texts, event payloads, incident ids and container scopes: columns that no decision in the transaction reads.
- `execute_idempotent`: the reservation store is not part of this model; only the identity of a request is.
- PathRules.ProtectedExactly: a path is canonical, and letters change case as in ASCII only.
- RequestIdentity.IdentityExact: strings hold no lone surrogates, which the final encoding refuses.
- TextChunks.CutMakesAnAddress: of the redaction rules only the one for IPv4 addresses is modelled; elsewhere redaction is any function.
- TextChunks.PublishMessage: extracting product text from provider JSON and the transcript loop around it are left out.
- RefResolver.Resolver.ResolveAll: the walk over paths, methods and media types only selects the schemas; they are its parameter.
- HTTP routing, generated SDK code, React and Ink components, key storage, configuration and the recording scripts: input and output or thin wrappers.
