# Verification of the project generator and its acceptance

The repository assembles software projects. Its core is a transactional generator: it compares a target directory
with a lock of who owns which file, computes a change set, stages it, replaces files one by one, takes everything
back on a failure, writes a journal and other documents to a second store, and publishes those by one directory
rename. A later call can roll the whole generation back. The completion service then decides whether manifest, lock
and plan close over each other. This project models that logic in Dafny and proves what it guarantees, together with
four smaller pieces with real state: the strict template renderer, the scope-binding transactions, the migration
runner, and the run documents of the assembly workflow.

`dafny verify dfyconfig.toml` checks everything.

## How it is modelled

- **Filesystem** (`Disk`): one tree, a map of regular files and a set of directories, changed by the calls the
  generator makes. Every call may fail; a failure without a visible reason is counted in `faults`. A rename is
  atomic; a write may leave a partial file behind, a recursive removal may stop half way. A single writer is assumed.
- **Failures.** Every theorem about an exit holds for every pattern of failing operations. What depends on how many
  operations failed is said of the fault counters before and after the call: an execution is all or nothing as long as
  they grow by at most `Tolerated`, which is 1 unless a directory stands in the place of an output. Contracts of the
  form "an error without a new fault means ..." turn the same operations into exact decisions: without a failing
  operation they succeed if and only if the stated condition holds.
- **What was seen.** The filesystem keeps a list, `seen`, of the files each complete inspection found, so that a
  theorem can say of a moment inside a call that the target matched then.
- **Documents store** (`ArtifactStore`): a staging directory and a final directory for one request, each a map from
  document name to document, with the same kind of failures.
- **Digests** are ideal: a value that wraps the content, so equal digests mean equal content.
- **Bytes** are characters; **paths** are already lower-cased.
- **Sorting** is a relation: any ordered permutation. Nothing proved depends on how a sort arranges equal keys.

The modules follow the program:

| module | what it covers |
|---|---|
| Ordering, Paths, Digests | string order, sorting, paths and the sorted-neighbour overlap scan, ideal digests |
| Region | the generated region of an integration file |
| Model, Overlay, Copies | requests, plans, changes; a change set laid over a file map; copies kept in a working directory |
| Disk, Inspect, Target, Snapshots | filesystem calls, inspection, preparation of a change set, the predicted snapshot |
| Undo, Commit | undoing replaced files, the file commit |
| Artifacts, ArtifactStore | the documents, how they are built, staged, marked and published |
| Recovery, Executor, RollbackExecutor | restoring from backups, Execute, Rollback |
| RoundTrip, Conservation, Lifecycle, Replay, Upgrade | theorems that span several of these operations |
| Semantics, Acceptance | the completion rules, and that they accept what the generator builds |
| Template, Renderer | the strict template language and the renderer |
| Patterns | what the validators of paths, identifiers and digests accept, pattern by pattern |
| ScopeBinding, Migrations, RunEvolution | scope-binding transactions, the migration runner, run documents |

## Findings

Places where the code does something else than its documentation or a first reading suggests. The model follows the
code; each item names the lemma or contract that pins it down.

- An error does not mean the target is unchanged: when only the cleanup of the staging directory fails
  (`commit.go:179-182`) the changes stay in place and the flag is false. The flag tells the truth
  (`Executor.Execute`, through `TargetKept`), and this is the only way an error other than a failed rollback leaves the
  target changed: completely, with nothing but the cleanup missing (`OnlyCleanupFailed` in `Commit`, `ErrorLeaves` in
  `Executor`).
- The result document of a conflict always says `target_unchanged` (`artifacts.go:313-315`), whatever happened: the
  field contradicts the commit result's flag exactly there (`Artifacts.ConflictClaimsUnchanged`). The theorems are about
  the flag.
- The staging and recovery directories lie inside the target. "Unchanged" is therefore about everything outside
  them, and literal as soon as staging was cleaned up (`Executor.CleanedUp`); `Conservation.UnchangedLiterally` is
  the exact condition.
- An output with an invalid merge specification yields an empty change instead of a refusal at preparation
  (`target.go:150-156`, `222-225`). The commit then refuses it, so the target is left as it was
  (`Commit.CommitChanges`); the conservation theorems assume valid merge specifications.
- A rollback rebuilds ownership from the journal alone, so a file once forked comes back as custom and the checksum
  differs. It succeeds if and only if the request's snapshot lists no forked file (`RoundTrip.RebuiltCheckExactly`,
  `RoundTrip.RollbackExecuted`, `RoundTrip.ExecuteThenRollback`); `RoundTrip.ForkedFileBlocksRollback` is a concrete case.
  The files are back all the same: the answer is an error over the earlier files, the journal says the rollback failed,
  and every further rollback is refused (`RoundTrip.RollbackRefused`).
- A desired output locked as forked appears in the manifest but not among the managed lock files. Completion accepts
  what the generator built if and only if there is none and the plan's own lists are in order
  (`Acceptance.AcceptedExactly`). A first generation has none, since nothing is locked yet.
- The overlap scans compare sorted neighbours only, and bytes below `/` can stand between a directory and what is
  below it: `a`, `a-b`, `a/c` passes (`Paths.ScanMissesNestedPair`; `Paths.ScanAcceptsExactly` is the exact
  condition). The progress theorems therefore ask for outputs that do not nest (`Unnested` in
  `CommitPossible` and `RoomFor`); safety does not.
- The case-insensitive duplicate check also looks at neighbours in case-sensitive order only: `A`, `B`, `a` passes
  (`Semantics.NeighbourScanMissesFoldedPair`). Accepted are exactly the lists with distinct keys in which another key sorts
  between any two that differ only in case (`Semantics.FoldsApartExactly`).
- An empty file in the target can never be updated: its backup would be empty, and the store refuses to write an
  empty document (`ArtifactStore.WriteBundle`, `Executor.EmptyFilesStay`). So a first execution succeeds only if
  no empty generated file is to get content (`NoEmptyUpdate` in `Executor`).
- A directory in the place of a new output, empty as far as files go, passes preparation, because the inspection lists
  files only, and stops the commit when the outputs before it are already in place (`commit.go:335-342`). The undo puts
  them back, but a single failing removal then leaves neither the old nor the new target: `Commit.OneFaultTooMany` is
  such an input. Without such a directory one failing operation never does (`Executor.Execute`, `NoDirectoryInPlace`),
  and with everything else in place a first execution succeeds if and only if there is none, forked outputs aside, and
  no empty generated file is to get content (`Executor.ExecuteStartable`).
- A completed, compensated or skipped step may not stay as it is (`core/service.go:1044-1046`), and the workflow's
  builder never moves one on. So no document it builds is accepted once there is such a step
  (`RunEvolution.NothingAfterClosedStep`): a new run can start generation and never get further, nor be marked failed
  (`RunEvolution.WorkflowStopsAtGeneration`). With the rule relaxed to also accept a step that is left alone, the
  intended chain completes (`RunEvolution.RelaxedChainCompletes`); that rule is not the code's.
- A failed step cannot be started again in the same run unless it had no start time or the same one, although the
  step rule allows failed to running (`RunEvolution.NoSecondStart`).

## Model

| member | source | states |
|---|---|---|
| Paths.NonOverlapping | platform/backend/internal/modules/assembly/core/semantics.go:356-377 | Sort, then compare neighbours: the verdict depends on the paths alone, not on which sort was used. |
| Paths.ScanAcceptsExactly | platform/backend/internal/modules/assembly/generation/renderer.go:92-104 | The scan accepts if and only if no path repeats and every listed ancestor of a listed path is also extended in the list by a byte below the slash. |
| Paths.ScanRejectsOnlyOverlaps | platform/backend/internal/modules/assembly/core/semantics.go:361-366 | A rejected list really holds two entries that are equal or nested. |
| Paths.ScanMissesNestedPair | platform/backend/internal/modules/assembly/core/semantics.go:374-377 | A concrete nested pair the scan lets through. |
| Region.MergeAcceptsExactly | platform/backend/internal/modules/assembly/generation/region.go:19-44 | A merge succeeds if and only if the file splits into prefix, begin line, body, end line, suffix with each marker once and on lines of their own. |
| Region.CarriedUnique | platform/backend/internal/modules/assembly/generation/region.go:53-56 | That split is unique: a file carries at most one region for given markers. |
| Region.AcceptedIsCarried | platform/backend/internal/modules/assembly/generation/region.go:24-39 | From a successful merge the split can be read off. |
| Region.MergeOfCarried | platform/backend/internal/modules/assembly/generation/region.go:40-43 | Merging replaces the body and nothing else, and reports the digests of the old and the new body. |
| Region.RegionHoldsExactly | platform/backend/internal/modules/assembly/generation/target.go:230-247 | The digest a merge reports as current equals a recorded one if and only if the region still holds that body: drift inside the region is noticed, edits outside are not. |
| Region.SpecMarkers | platform/backend/internal/modules/assembly/generation/region.go:46-56 | The markers of a valid specification cannot overlap themselves or each other, so counting occurrences is unambiguous. |
| Region.NormalizedFixpoint | platform/backend/internal/modules/assembly/generation/renderer.go:188-192 | Text without carriage returns that ends in a newline is already normal. |
| Region.NormalizedLines | platform/backend/internal/modules/assembly/generation/renderer.go:188-192 | A normalized text has no carriage return, and its lines are those of the source, where CRLF, CR and LF each end one. |
| Region.BodyLines | platform/backend/internal/modules/assembly/generation/region.go:58-64 | The body put into a region has the lines of its rendering, the last of them ended. |
| Region.PutGet | platform/backend/internal/modules/assembly/generation/region.go:19-44 | After a merge the region holds the normalized render, prefix and suffix untouched. |
| Region.PutPut | platform/backend/internal/modules/assembly/generation/region.go:19-64 | A second merge overwrites the first: same file as merging the second render directly. |
| Region.GetPut | platform/backend/internal/modules/assembly/generation/region.go:58-64 | Merging a non-empty body without carriage returns back in changes nothing. |
| Region.CreatedIsCarried | platform/backend/internal/modules/assembly/generation/region.go:8-17 | A freshly created file carries its region, provided the render holds no marker. |
| Region.MergeAfterCreate | platform/backend/internal/modules/assembly/generation/region.go:8-44 | Merging a second render into a created file gives exactly the file created from the second render. |
| Region.UpgradeChain | platform/backend/internal/modules/assembly/generation/target.go:216-248 | Over any number of renders with user edits outside the region in between: every merge succeeds, reports the previous render as current, and leaves the edited prefix and suffix around the new body. |
| Disk.WriteNewFile | platform/backend/internal/modules/assembly/generation/commit.go:357-380 | Creates parents and then the file, never replacing one; on failure at most that file is partial. |
| Disk.CreateSafeDirectory | platform/backend/internal/modules/assembly/generation/commit.go:268-298 | Creates exactly the missing directories of the path, touches no file, and without a fault fails only where a file is in the way. |
| Disk.ResolveNonexistent | platform/backend/internal/modules/assembly/generation/commit.go:254-266 | Success means a safe path with nothing at it; refusal without a fault means the opposite. |
| Inspect.LockedFilesByPath | platform/backend/internal/modules/assembly/generation/target.go:392-405 | Accepts exactly the valid lock lists and indexes them. |
| Inspect.InspectTarget | platform/backend/internal/modules/assembly/generation/target.go:16-77 | The result lists every file once, sorted, with its digest and its owner in the lock; without a fault it is refused exactly for an invalid lock or an unsafe path. |
| Inspect.SnapshotUnique | platform/backend/internal/modules/assembly/generation/target.go:62-76 | One target and one ownership have exactly one snapshot. |
| Inspect.SnapshotDetermines | platform/backend/internal/modules/assembly/generation/target.go:415-425 | A snapshot determines both the file contents and their owners, so equal checksums mean equal targets. |
| Inspect.InspectWithKnownOwnership | platform/backend/internal/modules/assembly/generation/target.go:325-343 | Under the ownership of an expected list, inspection reproduces that list if and only if the target matches it. |
| Inspect.VerifySnapshot | platform/backend/internal/modules/assembly/generation/executor.go:164-170 | Passes if and only if the target is as the snapshot says. |
| Inspect.MatchesDetermines | platform/backend/internal/modules/assembly/generation/target.go:314-323 | Two targets that match one snapshot are equal. |
| Target.ValidateFileRequest | platform/backend/internal/modules/assembly/generation/target.go:250-312 | Accepts exactly the well-formed requests made for this very snapshot: the same files in any order, the same checksum, working paths safe and clear of the outputs. |
| Target.PrepareOutput | platform/backend/internal/modules/assembly/generation/target.go:106-160 | For one output: the decision is sound, without a fault it settles if and only if nothing overlaps and the owner and the baseline allow it, and error and code of a refusal say what is true of the output. |
| Target.PrepareFound | platform/backend/internal/modules/assembly/generation/target.go:130-160 | Once nothing overlaps: a forked file is kept, a custom one is a conflict, a managed one follows its owner rule, and without a fault it settles if and only if that rule allows it. |
| Target.GeneratedSound | platform/backend/internal/modules/assembly/generation/target.go:193-214 | A generated file is created, updated or left alone exactly when absent or unedited since the lock; otherwise it is a conflict. |
| Target.IntegrationSound | platform/backend/internal/modules/assembly/generation/target.go:216-248 | An integration change only ever replaces the region of the current file, or creates a new one. |
| Target.IntegrationSettles | platform/backend/internal/modules/assembly/generation/target.go:228-247 | It settles if and only if the region in the file is the one the lock recorded. |
| Target.RenderedByPath | platform/backend/internal/modules/assembly/generation/target.go:94-104 | Renders are indexed by path; refused exactly when two share one. |
| Target.AllowedExactly | platform/backend/internal/modules/assembly/generation/target.go:193-246 | An output is allowed to its owner if and only if it is forked, or its file is neither foreign nor edited since the lock. |
| Target.CheckRemovals | platform/backend/internal/modules/assembly/generation/target.go:162-175 | A conflict is raised if and only if a managed locked file is no longer desired, it outweighs none raised before, and the diagnostics added name exactly those files. |
| Target.UntouchedFiles | platform/backend/internal/modules/assembly/generation/target.go:177-186 | Exactly the undesired, unmanaged files of the snapshot. |
| Target.PrepareOutputs | platform/backend/internal/modules/assembly/generation/target.go:106-160 | The loop over outputs: every change and every kept file comes from exactly one output, none is lost. |
| Target.PrepareTarget | platform/backend/internal/modules/assembly/generation/target.go:79-191 | A prepared change set covers each output not locked as forked, preserves exactly the custom and forked files, and overlaps nothing; without a fault it fails only when a precondition of Preparable is missing. A conflict names a true reason, an edited file before any lesser one, and its diagnostics name exactly the outputs refused and the managed files no longer asked for. |
| Conservation.ManagedIsChanged | platform/backend/internal/modules/assembly/generation/target.go:120-160 | A file of the target has a change if and only if it is managed, and then of its own ownership and never a creation. |
| Conservation.PreparationConserves | platform/backend/internal/modules/assembly/generation/target.go:79-191 | The snapshot splits disjointly into preserved files and updated or unchanged changes, created paths were free, each output not locked as forked has its one change. |
| Conservation.MergeKeepsOutside | platform/backend/internal/modules/assembly/generation/target.go:216-248 | An updated integration file differs from the old one in its region only. |
| Conservation.UserBytesSurvive | platform/backend/internal/modules/assembly/generation/executor.go:40-112 | Whatever fails, every file the lock does not call the generator's own keeps its bytes, and every integration file its text outside the region the lock names. |
| Conservation.ExecuteSparingUserBytes | platform/backend/internal/modules/assembly/generation/executor.go:40-99 | The same as a contract of Execute on every exit, conflict and failed rollback included, said of the target and the lock the caller holds. |
| Conservation.UnchangedLiterally | platform/backend/internal/modules/assembly/generation/commit.go:179-199 | If the target is unchanged outside the working directories, it is literally unchanged if and only if no new file is left inside them. |
| Commit.StageOne | platform/backend/internal/modules/assembly/generation/commit.go:73-125 | One change staged: its new content and, for an update, a backup of the old one, nothing outside the staging directory touched. |
| Commit.StageChanges | platform/backend/internal/modules/assembly/generation/commit.go:73-118 | All effective changes staged and journalled in order; without a fault staging fails only if one is not stageable. |
| Commit.EnsureSafeTargetParent | platform/backend/internal/modules/assembly/generation/commit.go:300-333 | Makes the missing parents, reports exactly those it made in order, and touches no file even on failure. |
| Commit.ValidateTargetForChange | platform/backend/internal/modules/assembly/generation/commit.go:335-355 | Passes only if a path to create is free, or a path to update still holds the recorded content. |
| Commit.ApplyOne | platform/backend/internal/modules/assembly/generation/commit.go:127-169 | One replacement is atomic: the staged file moves over the path, or no file changes. |
| Commit.ApplyAll | platform/backend/internal/modules/assembly/generation/commit.go:127-169 | After any number of applied changes the target is the old one overlaid with exactly that prefix of the change set. |
| Undo.UndoOne | platform/backend/internal/modules/assembly/generation/commit.go:205-217 | Undoing one applied change restores what was there, or changes nothing. |
| Undo.UndoFiles | platform/backend/internal/modules/assembly/generation/commit.go:202-220 | The reverse loop: the old files if every step works, and otherwise each path old or new, never anything else. |
| Undo.RemoveCreatedDirectories | platform/backend/internal/modules/assembly/generation/commit.go:221-230 | Removes exactly the directories made, leaving those that were there. |
| Undo.RollbackApplied | platform/backend/internal/modules/assembly/generation/commit.go:202-231 | Success means the old files and the old directories; failure means a further operation failed. |
| Commit.RollbackAfterFailure | platform/backend/internal/modules/assembly/generation/commit.go:188-200 | The unchanged flag is set if and only if no rollback error is reported, and then the target is the old one; without a further fault it is. |
| Commit.ValidateCommitPaths | platform/backend/internal/modules/assembly/generation/commit.go:233-252 | Accepts exactly the change sets whose actions are filled in and whose paths stay clear of the working paths, which must be safe and apart. |
| Commit.VerifyWritten | platform/backend/internal/modules/assembly/generation/commit.go:170-178 | Passes only if every effective change can be read back with its digest. |
| Commit.OpenStage | platform/backend/internal/modules/assembly/generation/commit.go:48-72 | Opens a fresh, empty staging directory, only for a target that still matches the snapshot; each error of a refusal has its true cause. |
| Commit.CommitApplied | platform/backend/internal/modules/assembly/generation/commit.go:119-186 | From staged changes: success is the whole overlay and reports it, a set flag is the old target, and anything but one of these takes a fault in the rollback, a second one if the changes fitted. |
| Commit.StagedAppliable | platform/backend/internal/modules/assembly/generation/commit.go:77-118 | What has been staged does not nest and has its announced digests. |
| Commit.HalfCommitted | platform/backend/internal/modules/assembly/generation/commit.go:120-200 | Two new files, a directory in the place of the second: the first is moved into place, the second never is, and only a working removal brings the old target back. |
| Commit.OneFaultTooMany | platform/backend/internal/modules/assembly/generation/commit.go:335-342 | A concrete such target, which one failing removal leaves half done. |
| Commit.CommitChanges | platform/backend/internal/modules/assembly/generation/commit.go:48-186 | The commit as a whole: success installs and reports exactly the prepared changes, the flag never lies and is never set for a target that was not checked, a completed cleanup leaves nothing at the staging path, an error other than a failed rollback leaves the old target or all of the new one uncleaned, a failed rollback takes two faults if the changes fitted the target, and without a fault it fails only where CommitPossible does. |
| Snapshots.SnapshotAfterChanges | platform/backend/internal/modules/assembly/generation/artifacts.go:408-426 | Predicts the snapshot: changed paths with their new digest and owner, all others as before, sorted. |
| Snapshots.PredictionComesTrue | platform/backend/internal/modules/assembly/generation/artifacts.go:408-426 | The target overlaid with the changes matches the prediction. |
| Snapshots.PreparedFits | platform/backend/internal/modules/assembly/generation/target.go:106-160 | A prepared change set fits its target: creations are free, previous digests are the current ones, owners are the locked ones. |
| Snapshots.AllFilledIn | platform/backend/internal/modules/assembly/generation/target.go:216-225 | With valid merge specifications no empty change is prepared. |
| Conservation.LockEntries | platform/backend/internal/modules/assembly/generation/artifacts.go:513-558 | The entries of the generated lock are exactly those of the predicted snapshot. |
| Conservation.ThreeSnapshotsAgree | platform/backend/internal/modules/assembly/generation/artifact_store.go:85-93 | Predicted, rebuilt from the lock, and inspected from disk: one and the same list. |
| Artifacts.OutputSetsEqual | platform/backend/internal/modules/assembly/generation/renderer.go:228-245 | Acceptance means the same outputs with the same multiplicities; equal lists with distinct paths are accepted. |
| Artifacts.SecretSetsEqual | platform/backend/internal/modules/assembly/generation/renderer.go:247-261 | The same for secret references by provider, key and environment. |
| Artifacts.ValidateRequestPlan | platform/backend/internal/modules/assembly/generation/renderer.go:83-106 | Acceptance means request and plan agree; agreeing pairs with distinct secrets are accepted. |
| Artifacts.EqualSortedIdentifiers | platform/backend/internal/modules/assembly/generation/artifacts.go:608-621 | True if and only if both lists are the same multiset without repetition. |
| Artifacts.ValidateArtifactContext | platform/backend/internal/modules/assembly/generation/artifacts.go:342-406 | Accepts exactly the contexts made for this plan, with listed evidence, and a previous generation named by an upgrade and by no first generation. |
| Artifacts.VerifyEvidenceDocuments | platform/backend/internal/modules/assembly/generation/artifacts.go:250-263 | Succeeds exactly when every evidence document is at hand, non-empty and has its recorded digest. |
| Artifacts.BuildRollbackDocuments | platform/backend/internal/modules/assembly/generation/artifacts.go:428-461 | Journal and rollback point record every change, the backups are the old contents of exactly the updated files. |
| Artifacts.BuildAssemblyManifest | platform/backend/internal/modules/assembly/generation/artifacts.go:463-511 | The manifest lists each desired output once with the digest of its change, and each template version once per id. |
| Artifacts.BuildGeneratedLock | platform/backend/internal/modules/assembly/generation/artifacts.go:513-558 | The lock lists each change with its output and each preserved file, sorted, under the digests of manifest and snapshot. |
| Artifacts.LockedAs | platform/backend/internal/modules/assembly/generation/artifacts.go:528-546 | Every lock entry has the policy of its owner, and a preserved file is locked with nothing but its digest. |
| Artifacts.BuildArtifactBundle | platform/backend/internal/modules/assembly/generation/artifacts.go:197-248 | The bundle suits request, plan and change set and suffices to restore the target; without a fault it fails only where Bundleable does. Result, journal and rollback point name the request, and the result reports the change set. |
| Artifacts.ConflictClaimsUnchanged | platform/backend/internal/modules/assembly/generation/artifacts.go:309-315 | The published field says unchanged against the flag of the commit exactly in a conflict. |
| Artifacts.FailureDocument | platform/backend/internal/modules/assembly/generation/artifacts.go:265-340 | What a failure publishes, error by error: a conflict for four causes and a failure for any other, nothing written, the flags of the commit, and the diagnostics at hand or one that names the first known cause. |
| ArtifactStore.Store.LoadPublished | platform/backend/internal/modules/assembly/generation/artifact_store.go:45-94 | What is found is what was published, its evidence under its digests and its snapshot rebuilt from the lock; a loadable or absent generation fails to load only through a fault. |
| ArtifactStore.Prepare | platform/backend/internal/modules/assembly/generation/artifact_store.go:96-129 | Either a fresh stage holding exactly the bundle, or a final directory already holding it, or an error that leaves the published documents alone. |
| ArtifactStore.WriteBundle | platform/backend/internal/modules/assembly/generation/artifact_store.go:185-222 | Success stages exactly the documents, none of them empty; without a fault it refuses only an empty one. |
| ArtifactStore.PublishFailure | platform/backend/internal/modules/assembly/generation/artifact_store.go:131-183 | Publishes the failed result, the diagnostics and the staged journal only where nothing was published, the success documents gone; without a fault it fails only if something is in the way. |
| ArtifactStore.StageFailure | platform/backend/internal/modules/assembly/generation/artifact_store.go:156-181 | Replaces the staged success documents by the evidence of the failure, the journal kept; without a fault it fails only if a temporary or diagnostic file is in the way. |
| ArtifactStore.ReplaceStagedResult | platform/backend/internal/modules/assembly/generation/artifact_store.go:419-434 | Replaces the staged result alone; without a fault it fails only with no stage or a temporary file in the way. |
| ArtifactStore.ArtifactSetMatches | platform/backend/internal/modules/assembly/generation/artifact_store.go:350-392 | True if and only if the final directory holds this bundle with a committed journal, faults aside. |
| ArtifactStore.Store.ReplaceJournalState | platform/backend/internal/modules/assembly/generation/artifact_store.go:394-434 | Rewrites the journal state and nothing else; on failure every document is as before, a temporary file aside. |
| ArtifactStore.Transaction.MarkCommitted | platform/backend/internal/modules/assembly/generation/artifact_store.go:224-236 | Marks the staged journal committed and leaves all other documents. |
| ArtifactStore.Transaction.MarkRolledBack | platform/backend/internal/modules/assembly/generation/artifact_store.go:238-251 | Marks it rolled back or failed to roll back, likewise. |
| ArtifactStore.Transaction.Publish | platform/backend/internal/modules/assembly/generation/artifact_store.go:253-268 | One rename: the stage becomes the final directory, or nothing changes. |
| ArtifactStore.Transaction.Cleanup | platform/backend/internal/modules/assembly/generation/artifact_store.go:270-275 | Never touches the published documents, nor the stage of a published transaction. |
| ArtifactStore.Transaction.ReadBackup | platform/backend/internal/modules/assembly/generation/artifact_store.go:277-299 | Reads the recorded backup from where the transaction now lives. |
| Undo.TakingBackStep | platform/backend/internal/modules/assembly/generation/commit.go:202-220 | One step of the reverse loop for any list of changes, repeated paths included: what is left to take back still leads to the same files, and each path holds its old content or what one of its own changes restores. |
| Recovery.StageRecovery | platform/backend/internal/modules/assembly/generation/executor.go:185-208 | Writes the backups needed into the recovery directory and nothing elsewhere; it succeeds only if every backup and record is there, and without a fault fails only if one is missing or a file is updated twice. |
| Recovery.UndoFromRecovery | platform/backend/internal/modules/assembly/generation/executor.go:209-215 | For any list of changes: success means they are taken back, last first, the check passed and nothing is left in the recovery directory; on failure each path holds its old content or what one of its own changes restores, and all of them the same side unless an operation failed. |
| Recovery.RecoverableReverts | platform/backend/internal/modules/assembly/generation/rollback.go:82-92 | Taking a committed change set back, last first, gives the files before it. |
| Recovery.RecoveryEmptied | platform/backend/internal/modules/assembly/generation/rollback.go:88-98 | When the undo succeeds, the recovery directory holds no regular file any more. |
| Recovery.RestoreTarget | platform/backend/internal/modules/assembly/generation/rollback.go:55-98 | The restoration shared by both callers, with its exact success condition when nothing fails. |
| Executor.RestorePreparedChanges | platform/backend/internal/modules/assembly/generation/executor.go:172-216 | Brings a committed target back to the old files; without a fault only for a listed reason not. |
| Executor.Fail | platform/backend/internal/modules/assembly/generation/executor.go:114-135 | Reports the cause, publishes the failure at most where nothing was published, and without a fault does publish it if its documents pass their contracts and nothing is in the way. |
| Executor.RollbackAndFail | platform/backend/internal/modules/assembly/generation/executor.go:101-112 | After a commit: the flag is set exactly if no rollback error is reported, and then the old files are back; all old or all new unless an operation fails; with all that is needed at hand, a rollback error takes a fault. A journal published then says rolled back only over the old files and without a rollback error, and rollback failed only with one. |
| Executor.FinalCheckPasses | platform/backend/internal/modules/assembly/generation/executor.go:82-91 | The final check cannot fail by itself: a commit of a prepared change set passes it. |
| Executor.MarkAndPublish | platform/backend/internal/modules/assembly/generation/executor.go:92-98 | A failure leaves nothing published and every backup still staged. |
| Executor.PublishCommitted | platform/backend/internal/modules/assembly/generation/executor.go:89-99 | Publishes a committed journal only after an inspection found the target to match, or restores the target; leaving neither takes a fault, and two with all that is needed at hand. |
| Executor.CleanedUp | platform/backend/internal/modules/assembly/generation/commit.go:188-200 | Same files outside the staging directory and none inside: the same files. |
| Executor.PreparedCommits | platform/backend/internal/modules/assembly/generation/commit.go:48-72 | Whatever was prepared can be committed, if no output lies below another, no directory is in its place and the staging path is free. |
| Executor.EmptyFilesStay | platform/backend/internal/modules/assembly/generation/artifact_store.go:213-216 | What a successful execution published shows that it left every empty file of the target alone. |
| Executor.DeliveredNoEmptyUpdate | platform/backend/internal/modules/assembly/generation/artifact_store.go:213-216 | What was delivered gave no empty generated file any content. |
| Executor.DeliveredNoDirectory | platform/backend/internal/modules/assembly/generation/commit.go:335-342 | What was delivered found no directory in the place of an output that is not forked. |
| Executor.CommitAndPublish | platform/backend/internal/modules/assembly/generation/executor.go:82-99 | Commit, check, mark and publish: what every exit leaves in the target and in the store, that the journal of a failure tells how its rollback ended, and how many faults it takes to leave neither the old nor the new target. |
| Executor.Replay | platform/backend/internal/modules/assembly/generation/executor.go:48-58 | A repeated request answers from the published documents, writes nothing, and succeeds if the target is still as it was left. |
| Executor.Execute | platform/backend/internal/modules/assembly/generation/executor.go:40-99 | On every exit the flag implies the old target and success implies exactly the prepared changes, seen in the target and published; an error other than a failed rollback leaves the old target or all of the new one uncleaned; without a fault, or with one if no directory stands in the place of an output, the target is all old or all new; a published generation is never touched; the published journal of a failure says rolled back only over the old files, rollback failed only with that error, and without a store fault one of the two after every attempted rollback; a refusal by the preparation leaves the target alone for the reason its error and diagnostics name; what succeeds has passed its contracts; without a store fault no staged documents are left to block the next call; without a fault a first run with everything it needs succeeds. |
| Executor.ExecuteStartable | platform/backend/internal/modules/assembly/generation/executor.go:59-99 | With everything else in place and no fault, a first execution succeeds if and only if no empty generated file is to get content and no directory stands in the place of an output. |
| RollbackExecutor.VerifyCommittedChanges | platform/backend/internal/modules/assembly/generation/rollback.go:108-116 | Passes exactly when the target still holds what the journal says was written. |
| RollbackExecutor.RebuildLocks | platform/backend/internal/modules/assembly/generation/rollback.go:118-128 | Ownership rebuilt from the journal: every change that was no creation. |
| RollbackExecutor.VerifyRollbackSnapshot | platform/backend/internal/modules/assembly/generation/rollback.go:118-135 | Passes if and only if the target, under ownership rebuilt from the journal, has the recorded checksum. |
| RollbackExecutor.RecordedReverts | platform/backend/internal/modules/assembly/generation/rollback.go:56-87 | Taking back what the recovery is given undoes what the journal records, whatever its order and however often it names a path. |
| RollbackExecutor.RebuiltUpdatesOnce | platform/backend/internal/modules/assembly/generation/rollback.go:118-135 | A lock can be rebuilt only from a journal that updates no file twice. |
| RollbackExecutor.RollbackCommitted | platform/backend/internal/modules/assembly/generation/rollback.go:50-105 | A committed generation undone and marked: only journalled paths touched, success is exactly the undone target, without a fault it succeeds if and only if RollbackPossible, undoes the files whenever CanUndo, and every failure that has changed a file outside the working directories is marked in the journal. |
| RollbackExecutor.MarkJournal | platform/backend/internal/modules/assembly/generation/rollback.go:137-147 | Changes the state of the published journal and nothing else. |
| RollbackExecutor.Rollback | platform/backend/internal/modules/assembly/generation/rollback.go:26-106 | Success undoes exactly the journalled changes and returns the recorded snapshot; on any other exit each path holds its old content or what undoing one of its changes leaves; no other path is touched, and none at all unless the journal says committed; without a fault or cancellation a committed generation is rolled back if and only if RollbackPossible; and a failure that has changed the target leaves a journal that says rollback failed, unless writing that journal failed. |
| RollbackExecutor.UndoneMixture | platform/backend/internal/modules/assembly/generation/rollback.go:56-98 | Where the journal names no path twice, every exit leaves a mixture of the old and the undone files. |
| RoundTrip.UndoneIsBase | platform/backend/internal/modules/assembly/generation/artifacts.go:428-461 | Undoing the recorded journal on the overlaid target gives back the old files. |
| RoundTrip.RebuiltOwner | platform/backend/internal/modules/assembly/generation/rollback.go:118-128 | Rebuilt ownership is the locked one, except that forked files become custom. |
| RoundTrip.RebuiltCheckExactly | platform/backend/internal/modules/assembly/generation/rollback.go:118-135 | The final check of a rollback passes if and only if the inspected snapshot had no forked file. |
| RoundTrip.ForkedFileBlocksRollback | platform/backend/internal/modules/assembly/generation/rollback.go:118-135 | A concrete target where that check fails. |
| RoundTrip.RollbackOfExecution | platform/backend/internal/modules/assembly/generation/artifacts.go:428-461 | What Execute publishes can be rolled back to the old target, exactly if the recovery path is free and no file was forked. |
| RoundTrip.RollbackExecuted | platform/backend/internal/modules/assembly/generation/rollback.go:26-106 | Rollback on the target as Execute left it: success restores the earlier files under the checksum of the request, and without a fault and with a free recovery path the earlier files are back in any case, and the answer is a success and the journal rolled back if the snapshot of the request has no forked file, an error and rollback failed if it has one. |
| RoundTrip.RollbackRefused | platform/backend/internal/modules/assembly/generation/rollback.go:26-49 | Once the journal says rollback failed, a further rollback is refused and writes nothing. |
| RoundTrip.ExecuteThenRollback | platform/backend/internal/modules/assembly/generation/rollback.go:26-106 | Execute then Rollback is the identity on files and returns the checksum of the request; without faults, and with what the first call needs, the files are the old ones in any case, and both succeed if and only if the snapshot of the request has no forked file. |
| RoundTrip.RollbackTwice | platform/backend/internal/modules/assembly/generation/rollback.go:44-50 | After a successful rollback a second one leaves exactly what the first one left and returns the same snapshot. |
| RoundTrip.RollbackAgain | platform/backend/internal/modules/assembly/generation/rollback.go:44-46 | On a rolled back generation whose target shows the earlier snapshot, a rollback writes nothing to target or store and succeeds unless an operation fails. |
| Lifecycle.PublishedForGood | platform/backend/internal/modules/assembly/generation/artifact_store.go:253-268 | Over any run of executions, rollbacks and outside edits, published documents stay as they are but for the journal state, which only moves from committed on. |
| Lifecycle.CommittedWasSeen | platform/backend/internal/modules/assembly/generation/executor.go:89-98 | A committed journal was published by an execution during which an inspection found the target with the very changes it records, as the predicted snapshot says. |
| Lifecycle.SucceededWasDelivered | platform/backend/internal/modules/assembly/generation/executor.go:95-98 | A succeeded result was published by a successful execution that left exactly its change set in the target. |
| Lifecycle.JournalsNameOnce | platform/backend/internal/modules/assembly/generation/artifacts.go:439-459 | Over any run a committed journal names no path twice. |
| Lifecycle.LaterRollback | platform/backend/internal/modules/assembly/generation/rollback.go:26-106 | Over any run, a successful rollback restores the target that stood before the execution, however much later, if the target is then as the execution left it. |
| Lifecycle.TargetLeftAlone | platform/backend/internal/modules/assembly/generation/executor.go:48-58 | Once published, no execution writes the target; a rollback does so only while the journal says committed. |
| Lifecycle.OneMove | platform/backend/internal/modules/assembly/generation/rollback.go:137-147 | The journal state moves at most once after publication. |
| Lifecycle.Perform | platform/backend/internal/modules/assembly/generation/rollback.go:26-106 | Each real call of Execute or Rollback, with its result, is the step of that state machine its command names. |
| Lifecycle.PerformAll | platform/backend/internal/modules/assembly/generation/executor.go:40-99 | Any list of calls is a run of it, command by command and result by result, so the theorems above apply. |
| Replay.PublishedLoads | platform/backend/internal/modules/assembly/generation/artifact_store.go:45-94 | What an execution published can be loaded again, with the snapshot it was published with. |
| Replay.LoadedIsPredicted | platform/backend/internal/modules/assembly/generation/artifact_store.go:85-93 | The snapshot rebuilt from the lock is the predicted one. |
| Replay.ExecuteTwice | platform/backend/internal/modules/assembly/generation/executor.go:48-58 | Whatever a repeated execution comes to, target and store stay as the first one left them; without faults the first succeeds, and the second with the same snapshot if what was published passes its contracts. |
| Replay.ExecuteAgain | platform/backend/internal/modules/assembly/generation/executor.go:48-58 | The repeated call writes nothing to target or store, and on the target as it was left it succeeds with the published snapshot unless an operation fails or what is published does not pass its contracts. |
| Upgrade.GenerationHolds | platform/backend/internal/modules/assembly/generation/artifacts.go:513-558 | The published lock is true of the target: generated files have its digests, integration files hold regions with its body digests. |
| Upgrade.EditsKeepLock | platform/backend/internal/modules/assembly/generation/target.go:216-248 | Edits that leave generated files and regions alone keep the lock true. |
| Upgrade.OwnerAllowsExactly | platform/backend/internal/modules/assembly/generation/target.go:130-160 | Under a true lock ownership alone decides whether an output may be written. |
| Upgrade.UpgradePreparable | platform/backend/internal/modules/assembly/generation/target.go:79-191 | Under a true lock the next preparation is free of conflicts if and only if its outputs carry on the earlier ones. |
| Upgrade.ExecuteUpgrade | platform/backend/internal/modules/assembly/generation/executor.go:40-99 | A generation over an earlier one keeps the bytes of the user, leaves a true lock again, and without a fault succeeds whenever its outputs carry on. |
| Upgrade.UpgradeAfterEdits | platform/backend/internal/modules/assembly/generation/executor.go:40-99 | One generation over an edited target, under the lock of an earlier one: the edits survive, and if they kept to the side of the user only a failing operation of this very call keeps outputs that carry on from being generated. |
| Upgrade.GenerateEditUpgrade | platform/backend/internal/modules/assembly/generation/executor.go:40-99 | Two generations with an edit between them: the edit survives, and on the side of the user it causes no conflict; without a fault both succeed if both requests have what they need. |
| Upgrade.DeliveredShows | platform/backend/internal/modules/assembly/generation/target.go:193-248 | Every output that is not forked holds the rendering of its locked source, whole or between its markers. |
| Upgrade.RenderAndExecute | platform/backend/internal/modules/assembly/generation/executor.go:59-99 | The same of Render followed by Execute. |
| Semantics.SemanticEqual | platform/backend/internal/modules/assembly/core/semantics.go:334-354 | Decides the comparison, whose verdict is a function of the two lists as multisets. |
| Semantics.AcceptedAreDistinct | platform/backend/internal/modules/assembly/core/semantics.go:334-354 | Acceptance means distinct keys and one list a permutation of the other. |
| Semantics.FoldDistinctAccepted | platform/backend/internal/modules/assembly/core/semantics.go:334-354 | Every permutation pair with keys distinct in any case is accepted. |
| Semantics.FoldsApartExactly | platform/backend/internal/modules/assembly/core/semantics.go:341-350 | The neighbour comparison accepts exactly the lists with distinct keys in which another key sorts between any two that differ only in case. |
| Semantics.SemanticallyEqualExactly | platform/backend/internal/modules/assembly/core/semantics.go:334-354 | The exact verdict: permutations of each other that satisfy that condition. |
| Semantics.OrderDoesNotMatter | platform/backend/internal/modules/assembly/core/semantics.go:340-353 | The verdict does not depend on the order of either list, on the sort, or on which list comes first. |
| Semantics.NeighbourScanMissesFoldedPair | platform/backend/internal/modules/assembly/core/semantics.go:344-350 | A concrete list with two keys equal up to case that is accepted. |
| Semantics.UniqueTemplates | platform/backend/internal/modules/assembly/core/semantics.go:212-225 | Succeeds exactly when an id has one version, and then lists each template once. |
| Semantics.ValidateOutputClosure | platform/backend/internal/modules/assembly/core/semantics.go:273-309 | The loops, maps and the counter decide exactly the closure rules. |
| Semantics.ClosureIsBijection | platform/backend/internal/modules/assembly/core/semantics.go:273-328 | An accepted closure gives every planned output one manifest output and one managed lock file, and each of those the other two, with equal path, owner, source, strategy, content type, merge specification and digest. |
| Semantics.BijectionCloses | platform/backend/internal/modules/assembly/core/semantics.go:273-328 | Lists that correspond one to one in those fields, with the update policy and region digest of their owner and paths that pass the scan, are accepted. |
| Semantics.ValidateCompletedArtifacts | platform/backend/internal/modules/assembly/core/semantics.go:101-196 | Accepts exactly the manifests and locks that complete plan, blueprint and run, and returns their identity. |
| Acceptance.ClosureExactly | platform/backend/internal/modules/assembly/generation/artifacts.go:463-558 | The built manifest and lock close over the plan if and only if no desired output is locked as forked. |
| Acceptance.ChangeCount | platform/backend/internal/modules/assembly/generation/artifacts.go:486-493 | As many changes as desired outputs if and only if none is locked as forked. |
| Acceptance.LockPathsPass | platform/backend/internal/modules/assembly/core/semantics.go:356-368 | The lock paths of a real directory tree always pass the overlap scan. |
| Acceptance.AcceptedExactly | platform/backend/internal/modules/assembly/core/semantics.go:101-196 | Completion accepts what the generator built if and only if it was made for this run, the plan lists satisfy a condition on their ids alone, and no output is locked as forked. |
| Acceptance.FirstGenerationAccepted | platform/backend/internal/modules/assembly/core/semantics.go:101-309 | A first generation from a plan with unique ids is always accepted. |
| Acceptance.ExecuteThenComplete | platform/backend/internal/modules/assembly/generation/executor.go:40-99 | Execute followed by completion of its documents, with that exact condition said of the lock the caller passed. |
| Template.LookupTemplateValue | platform/backend/internal/modules/assembly/generation/template.go:64-77 | Walks the dotted path through objects, and fails where a step is missing. |
| Template.SplitJoins | platform/backend/internal/modules/assembly/generation/template.go:66 | The segments of a path contain no dot and give the path back when joined. |
| Template.SplitAppends | platform/backend/internal/modules/assembly/generation/template.go:66 | Splitting two paths joined by a dot gives the segments of both. |
| Template.JoinSplits | platform/backend/internal/modules/assembly/generation/template.go:66 | Splitting joined segments without dots gives those segments. |
| Template.LookupComposes | platform/backend/internal/modules/assembly/generation/template.go:64-77 | Looking up two dotted paths joined by a dot is looking up the first, then the second in what was found. |
| Template.ParseSound | platform/backend/internal/modules/assembly/generation/template.go:18-48 | An accepted source is the concatenation of its literals, free of double braces, and well-formed placeholders. |
| Template.ParseOfUnparse | platform/backend/internal/modules/assembly/generation/template.go:18-48 | Any such concatenation parses back into its parts. |
| Template.UniqueParse | platform/backend/internal/modules/assembly/generation/template.go:18-48 | There is only one way to split a source. |
| Template.RenderMeaning | platform/backend/internal/modules/assembly/generation/template.go:18-62 | Rendering succeeds exactly with the text in which each placeholder of the unique parse is replaced. |
| Template.RenderStrictTemplate | platform/backend/internal/modules/assembly/generation/template.go:18-62 | The cursor loop computes exactly that, and refuses as invalid only what has no parse. |
| Template.ValuesAreNotExpanded | platform/backend/internal/modules/assembly/generation/template.go:36-58 | A substituted value is copied as it is, whatever braces it contains. |
| Renderer.DependencyChecksums | platform/backend/internal/modules/assembly/generation/renderer.go:136-157 | Succeeds exactly when packages and templates agree on one checksum per id and version. |
| Renderer.RenderSource | platform/backend/internal/modules/assembly/generation/renderer.go:159-186 | Returns the one rendering of a source, or refuses only if there is none. |
| Renderer.RenderIsPure | platform/backend/internal/modules/assembly/generation/renderer.go:26-81 | The bytes of an output depend on its specification, the plan and the context alone. |
| Renderer.Render | platform/backend/internal/modules/assembly/generation/renderer.go:26-81 | Success renders each requested output once, in path order, from a source locked by the plan, with its true digest; with a request that matches its plan and consistent checksums it is refused only if some output has no rendering. |
| Patterns.SafePathExactly | platform/backend/internal/modules/assembly/machinecontract/path.go:12-25 | A path is safe if and only if it is neither empty nor too long, holds no NUL and no backslash, and each segment is a name: no step up or out, no colon, no end that Windows drops, no device. |
| Patterns.SegmentsJoin | platform/backend/internal/modules/assembly/machinecontract/path.go:19 | The segments hold no slash and give the path back when joined. |
| Patterns.DeviceExactly | platform/backend/internal/modules/assembly/machinecontract/path.go:27-36 | The reserved names are exactly these twenty-two. |
| Patterns.UpToDotExactly | platform/backend/internal/modules/assembly/machinecontract/path.go:28 | They are looked for in front of the first dot. |
| Patterns.UpperExactly | platform/backend/internal/modules/assembly/machinecontract/path.go:28 | And in capitals. |
| Patterns.FoldExactly | platform/backend/internal/modules/assembly/core/semantics.go:342 | Case folding turns each capital into its letter and leaves everything else. |
| Patterns.StableIdentifierExactly | platform/backend/internal/modules/assembly/generation/template.go:15 | A stable identifier is a letter, then words of letters and digits with one separator between any two. |
| Patterns.ValidPathExactly | platform/backend/internal/modules/assembly/generation/template.go:13 | A placeholder path is valid if and only if each segment the lookup walks is a word that starts with a letter. |
| Patterns.IdentifierTextExactly | platform/backend/internal/modules/assembly/generation/template.go:14 | What an identifier placeholder may be replaced by. |
| Patterns.ChecksumExactly | platform/backend/internal/modules/assembly/generation/renderer.go:220-226 | A checksum is the prefix and sixty-four hexadecimal digits. |
| Patterns.PinnedExactly | platform/backend/internal/modules/assembly/generation/renderer.go:138-151 | A dependency is pinned by an id, a version and such a checksum. |
| Patterns.MergeSpecExactly | platform/backend/internal/modules/assembly/generation/region.go:46-51 | A merge specification names the one strategy, one of two comment prefixes and a stable region identifier. |
| ScopeBinding.StepKeepsInv | platform/backend/internal/modules/accesscontrol/postgres/repository.go:112-154 | Every step of every interleaving keeps the invariant tying open transactions, records, bindings and versions together. |
| ScopeBinding.InvHolds | platform/backend/internal/modules/accesscontrol/postgres/repository.go:200-251 | So it holds in every reachable state. |
| ScopeBinding.EntryStands | platform/backend/internal/modules/accesscontrol/postgres/repository.go:244-251 | A committed binding stays: its record, its row and its event are never changed by later ones. |
| ScopeBinding.OneCommitPerKey | platform/backend/internal/modules/accesscontrol/postgres/repository.go:200-219 | No two commits share a key, a binding, a binding row or an event. |
| ScopeBinding.VersionCounts | platform/backend/internal/modules/accesscontrol/postgres/repository.go:134-136 | An administrator's version grows by exactly one per committed binding. |
| ScopeBinding.OneEventEach | platform/backend/internal/modules/accesscontrol/postgres/repository.go:130-146 | One outbox event and one binding per commit. |
| ScopeBinding.BindingIsIdempotent | platform/backend/internal/modules/accesscontrol/postgres/repository.go:112-154 | In every reachable state: no committed record is pending, one commit per key, all successful callers of a key got the same answer for the same request, versions and events add up. |
| ScopeBinding.FirstCallBinds | platform/backend/internal/modules/accesscontrol/postgres/repository.go:112-154 | From any state without another open transaction, a call with a new key, a free row and an unused event has a run of its own that returns its binding with the next version, and adds exactly that record, row, version and event. |
| ScopeBinding.LaterCallAnswers | platform/backend/internal/modules/accesscontrol/postgres/repository.go:200-219 | From any state, a later call with a recorded key returns the recorded binding for the same request and is refused as a conflict for another; nothing is written. |
| ScopeBinding.OvertakenCallAnswers | platform/backend/internal/modules/accesscontrol/postgres/repository.go:200-219 | The same for a call that had found no record before another one committed it. |
| ScopeBinding.FirstCallRefused | platform/backend/internal/modules/accesscontrol/postgres/repository.go:120-146 | A new key with an unknown role, a taken row or a used event gets the error of the first of these, and writes nothing. |
| ScopeBinding.EveryoneCanEnd | platform/backend/internal/modules/accesscontrol/postgres/repository.go:112-154 | No deadlock: from any state, however interleaved, all open transactions can end without one of them giving up. |
| ScopeBinding.ApartNeverWaits | platform/backend/internal/modules/accesscontrol/postgres/repository.go:112-154 | Calls with nothing in common never wait for each other. |
| ScopeBinding.MayGiveUp | platform/backend/internal/modules/accesscontrol/postgres/repository.go:112-117 | A transaction may fail at any point and then has changed nothing. |
| ScopeBinding.AnswerStays | platform/backend/internal/modules/accesscontrol/postgres/repository.go:112-154 | An answer once given stands for the rest of the run. |
| Migrations.ValidateHistory | platform/backend/internal/platform/migrations/runner.go:233-256 | Accepts exactly the histories that are a matching prefix of the sorted migrations. |
| Migrations.HistoryExactly | platform/backend/internal/platform/migrations/runner.go:233-256 | Such a history is one where every record has the name and checksums of a loaded migration and no earlier migration is missing. |
| Migrations.PrefixUnique | platform/backend/internal/platform/migrations/runner.go:233-256 | The length of that prefix is determined. |
| Migrations.MoreMigrations | platform/backend/internal/platform/migrations/runner.go:107-140 | A history stays valid when migrations are added at the end. |
| Migrations.ApplyUp | platform/backend/internal/platform/migrations/runner.go:107-140 | Cut off anywhere, the history stays such a prefix and the log gains each migration in between once, in order; success applies all; a foreign history is refused untouched. |
| Migrations.ApplyDownAll | platform/backend/internal/platform/migrations/runner.go:144-181 | Likewise downwards and in reverse; success leaves no migration applied. |
| Migrations.RunSeries | platform/backend/internal/platform/migrations/runner.go:107-181 | Over any series of runs the log is exactly what the runs committed, level by level, every history between them is resumable, no migration is applied twice without its down in between, and each failed run has a failing operation of its own. |
| Migrations.CompleteAfter | platform/backend/internal/platform/migrations/runner.go:107-140 | After any such series one more run up completes unless a transaction of its own fails. |
| RunEvolution.NextRunDocument | platform/backend/internal/workflows/assemblyexecution/service.go:367-421 | The loop over the steps yields the next document of a transition specification, the step order kept. |
| RunEvolution.StepBecomes | platform/backend/internal/workflows/assemblyexecution/service.go:369-400 | Field by field: a step that begins counts an attempt and starts now, one that ends finishes now, only a failed one takes the diagnostics, the rest stays. |
| RunEvolution.RunBecomes | platform/backend/internal/workflows/assemblyexecution/service.go:406-418 | The document never goes back in time, a terminal one is completed at its last change, and its identity stays. |
| RunEvolution.ValidateRunEvolution | platform/backend/internal/modules/assembly/core/service.go:992-1061 | Accepts exactly the successors allowed by status, identity, compensation, times, attempts and step rules. |
| RunEvolution.ChainKeeps | platform/backend/internal/modules/assembly/core/service.go:992-1031 | Over any chain of accepted documents the run and its steps stay themselves, attempts and time only grow, a time once set stays, completion goes with a terminal status, and nothing follows a finished or rolled back run or one with a skipped or compensated step. |
| RunEvolution.TransitionsExactly | platform/backend/internal/modules/assembly/core/service.go:977-990 | The legal edges between statuses of a run. |
| RunEvolution.StepTransitionsExactly | platform/backend/internal/modules/assembly/core/service.go:1043-1054 | The legal edges between statuses of a step. |
| RunEvolution.CompensationsExactly | platform/backend/internal/modules/assembly/core/service.go:1032-1041 | The legal edges between compensation statuses. |
| RunEvolution.AcceptedExactly | platform/backend/internal/modules/assembly/core/service.go:977-1061 | A built document is accepted if and only if the status edge is legal, the terminal flag fits, and each step is ready for what the specification does to it. |
| RunEvolution.NothingAfterClosedStep | platform/backend/internal/modules/assembly/core/service.go:1043-1054 | No specification and no time gives an accepted document once a step is completed, compensated or skipped. |
| RunEvolution.NoSecondStart | platform/backend/internal/modules/assembly/core/service.go:1056-1061 | A failed step can be started again only with an unset or identical start time. |
| RunEvolution.WorkflowStopsAtGeneration | platform/backend/internal/workflows/assemblyexecution/service.go:98-251 | A new run can enter provisioning and generation, after which every further document is rejected, failure included. |
| RunEvolution.RelaxedChainCompletes | platform/backend/internal/workflows/assemblyexecution/service.go:192-242 | Under a rule that also accepts unchanged steps, which is not the code's, validation and completion go through. |

## Left out

Modelled in a simpler form than the code:

- Operating-system details: symbolic links and reparse points, file modes, Windows rename, case folding of paths, the
  check that the two roots do not overlap, and process death in the middle of a call. Nothing in the repository
  reads a staged journal after a crash.
- Hashing, JSON encoding, RFC 8785 canonicalization (section 3.2 of RFC 8785) and the self-checksums embedded in
  documents: digests wrap the value. JSON schemas are parameters (`Contracts`, `wellFormed`), except the rules of the
  journal schema that a rollback relies on, which are `JournalWellFormed`.
- Bytes are characters and UTF-8 validity is a parameter (`Outside`); case folding covers ASCII.
- Artifact paths are one name per role, as the request builder lays them out, so the per-path layout checks of
  `artifact_store.go:316-348` and the request's artifact paths are not modelled.
- The name of a rollback's recovery directory, which the code derives from a digest, is a parameter (`root`); it is
  free or the rollback refuses.
- Renderer.Render: does not model that its caller may cancel it.
- Upgrade.ExecuteUpgrade: asks that no rendered region holds one of its own markers for the lock it leaves to be true.
- Conservation.PreparationConserves: assumes valid merge specifications, without which a change is empty and
  Commit.CommitChanges refuses the set untouched, and distinct outputs, which matching the plan ensures.
- Database rows that `BindAdminScope` only locks, timestamps, audit fields and error mapping; isolation is modelled as
  the unique keys and the row lock provide it.
- SQL bodies of migrations and the advisory lock: a migration is applied or not, in one transaction.

Not modelled, because it would add only easy members or takes other models to say anything about:

- Loading and parsing of migration files, catalog loading and resolution, the planner, the request factory, the
  repositories behind the assembly, product, tenant and identity services.
- The bootstrap of the first administrator, session resolution, authorization, tokens and the outbox dispatchers.
- Dispatch worker leases, HTTP handlers, configuration, command-line tools, health checks, logging, the admin web
  application, React components and TypeScript clients.
- Ejecting files from generator ownership (`eject.go`), diagnostics texts, and retry documents of runs.
