/**
 Executing one generation request: render, prepare, stage the artifacts, commit to the target, check the
 result, publish; and on any failure bring the target back and publish the evidence instead.
 */
module Executor {
  import opened Digests
  import opened Ordering
  import opened Paths
  import opened Region
  import opened Model
  import opened Overlay
  import opened Disk
  import opened Copies
  import opened Undo
  import opened Inspect
  import opened Target
  import opened Snapshots
  import opened Commit
  import opened Artifacts
  import opened ArtifactStore
  import opened Recovery

  function RecoveryRoot(request: Request): Path {
    request.stagingPath + "-recovery"
  }

  /** The generator's own working directories inside the target. */
  function WorkRoots(request: Request): set<Path> {
    {request.stagingPath, RecoveryRoot(request)}
  }

  // ---------------------------------------------------------------- from one working directory to both

  lemma ProjectTwice(files: Files, root: Path, roots: set<Path>)
    requires root in roots
    ensures Project(Project(files, {root}), roots) == Project(files, roots)
  {
    forall p
      ensures p in Project(Project(files, {root}), roots) <==> p in Project(files, roots)
    {
      if Hidden({root}, p) {
        assert Within(root, p);
      }
    }
  }

  lemma WiderSame(f: Files, g: Files, root: Path, roots: set<Path>)
    requires root in roots && SameOutside(root, f, g)
    ensures Project(g, roots) == Project(f, roots)
  {
    ProjectTwice(f, root, roots);
    ProjectTwice(g, root, roots);
  }

  // ---------------------------------------------------------------- what an execution guarantees

  /** Every path holds its old or its new content, new files in the working directories aside. */
  ghost predicate TargetSafe(roots: set<Path>, base: Files, after: Files, now: Files) {
    forall p | p in base || !Hidden(roots, p) :: At(now, p) == At(base, p) || At(now, p) == At(after, p)
  }

  lemma OneRootSafe(root: Path, roots: set<Path>, base: Files, after: Files, now: Files)
    requires root in roots && MixedOutside(root, base, after, now)
    requires InsideKept(root, base, now) || (InsideKept(root, after, now) && base.Keys <= after.Keys)
    ensures TargetSafe(roots, base, after, now)
  {
    forall p | p in base || !Hidden(roots, p)
      ensures At(now, p) == At(base, p) || At(now, p) == At(after, p)
    {
      HiddenByStage(root, p);
      if !Within(root, p) {
        ProjectAt(now, {root}, p);
        ProjectAt(base, {root}, p);
        ProjectAt(after, {root}, p);
        assert At(Project(now, {root}), p) == At(Project(base, {root}), p) || At(Project(now, {root}), p) == At(Project(after, {root}), p);
      } else {
        assert p in base;
      }
    }
  }

  /** The recovery directory is free, and no change leads into it. */
  ghost predicate RecoveryClear(t: Tree, request: Request, changes: seq<FileChange>) {
    SafePath(RecoveryRoot(request)) && !Exists(t, RecoveryRoot(request)) &&
    forall c | c in changes :: !Within(RecoveryRoot(request), c.path)
  }

  function RecordsOf(todo: seq<FileChange>): map<Path, Digest>
  {
    map c | c in todo && c.action == Updated :: c.path := ShaBefore(todo, c.path)
  }

  function ShaBefore(todo: seq<FileChange>, p: Path): Digest {
    if todo == [] then NoDigest
    else if todo[|todo| - 1].path == p then todo[|todo| - 1].previousSha
    else ShaBefore(todo[..|todo| - 1], p)
  }

  lemma {:induction false} ShaBeforeIs(todo: seq<FileChange>, c: FileChange)
    requires DistinctKeys(todo, ChangePath) && c in todo
    ensures ShaBefore(todo, c.path) == c.previousSha
  {
    var n := |todo| - 1;
    var k :| 0 <= k < |todo| && todo[k] == c;
    if k < n {
      assert ChangePath(todo[k]) != ChangePath(todo[n]);
      assert todo[..n][k] == c;
      ShaBeforeIs(todo[..n], c);
    }
  }

  lemma RecordsOfAgree(todo: seq<FileChange>)
    requires DistinctKeys(todo, ChangePath)
    ensures RecordsAgree(RecordsOf(todo), todo)
  {
    forall c | c in todo && c.action == Updated
      ensures c.path in RecordsOf(todo) && RecordsOf(todo)[c.path] == c.previousSha
    {
      ShaBeforeIs(todo, c);
    }
  }

  /** A committed change set can be taken back. */
  lemma CommittedRecoverable(base: Files, changes: seq<FileChange>)
    requires ChangesFit(base, changes)
    ensures Recoverable(Effective(changes), base, Overlaid(base, Effective(changes)))
  {
    EffectiveDistinct(changes);
  }

  /** The bundle's backups, once staged, are the ones a recovery looks for. */
  lemma StagedBackups(b: Bundle, changes: seq<FileChange>, files: Files, docs: Directory)
    requires BacksUp(b.backups, changes, files)
    requires forall p | p in b.backups :: BackupName(p) in docs && docs[BackupName(p)] == Blob(b.backups[p])
    ensures AllBackupsHeld(Some(docs), Effective(changes))
  {
  }

  /** After a commit the recovery directory is still free to be used. */
  lemma RecoveryStaysClear(t0: Tree, t: Tree, request: Request, changes: seq<FileChange>)
    requires RecoveryClear(t0, request, changes) && t.files == Overlaid(t0.files, Effective(changes))
    requires OnlyNeededDirectories(request.stagingPath, Effective(changes), t0.dirs, t.dirs)
    requires forall c | c in Effective(changes) :: !Overlap(c.path, request.stagingPath)
    requires forall a | Ancestor(a, request.stagingPath) :: a !in t0.files
    ensures !Exists(t, RecoveryRoot(request)) && !Blocked(t, RecoveryRoot(request))
  {
    var stage, root := request.stagingPath, RecoveryRoot(request);
    assert !ChangesPath(Effective(changes), root);
    assert !LeadsToChange(Effective(changes), root);
    OverlaidElsewhere(t0.files, Effective(changes), root);
    assert root[|stage|] == '-';
    forall a | Ancestor(a, root)
      ensures a !in t.files
    {
      RecoveryAncestor(request, a);
      assert !ChangesPath(Effective(changes), a);
      OverlaidElsewhere(t0.files, Effective(changes), a);
    }
  }

  lemma RecoveryAncestor(request: Request, a: Path)
    requires Ancestor(a, RecoveryRoot(request))
    ensures Ancestor(a, request.stagingPath)
  {
    var stage, root := request.stagingPath, RecoveryRoot(request);
    forall i | |stage| <= i < |root|
      ensures root[i] != '/'
    {
      assert root[i] == "-recovery"[i - |stage|];
    }
    assert root[..|a|] == stage[..|a|];
  }

  // ---------------------------------------------------------------- taking a committed target back

  /** Checks the target, then brings it back from the transaction's backups. */
  method RestorePreparedChanges(fs: Filesystem, request: Request, prepared: PreparedChangeSet, transaction: Transaction,
                                final: TargetSnapshot, ghost base: Files)
    returns (ok: bool)
    requires Closed(fs.tree) && fs.tree.files == Overlaid(base, Effective(prepared.changes)) && ChangesFit(base, prepared.changes)
    modifies fs, transaction.store`faults
    ensures Closed(fs.tree) && fs.faults >= old(fs.faults) && transaction.store.faults >= old(transaction.store.faults)
    ensures old(fs.seen) <= fs.seen
    ensures ok ==> fs.tree.files == base
    ensures MixedOutside(RecoveryRoot(request), base, old(fs.tree.files), fs.tree.files)
    ensures AllOrNothing(RecoveryRoot(request), base, old(fs.tree.files), fs.tree.files) || fs.faults > old(fs.faults)
    ensures InsideKept(RecoveryRoot(request), old(fs.tree.files), fs.tree.files)
    ensures !ok && fs.faults == old(fs.faults) && transaction.store.faults == old(transaction.store.faults) ==>
              !AsExpected(old(fs.tree.files), final) || !AsExpected(base, prepared.snapshot) ||
              !SafePath(RecoveryRoot(request)) || Exists(old(fs.tree), RecoveryRoot(request)) || Blocked(old(fs.tree), RecoveryRoot(request)) ||
              !AllBackupsHeld(transaction.store.Docs(if transaction.published then Final else Staging), Effective(prepared.changes))
  {
    ghost var after := fs.tree.files;
    MixtureReflexive(Project(base, {RecoveryRoot(request)}), Project(after, {RecoveryRoot(request)}));
    CommittedRecoverable(base, prepared.changes);
    var drift := VerifySnapshot(fs, final);
    if drift.Some? {
      return false;
    }
    var todo := Effective(prepared.changes);
    RecordsOfAgree(todo);
    var restored := RestoreTarget(fs, transaction.store, if transaction.published then Final else Staging, RecoveryRoot(request),
                                  todo, RecordsOf(todo), AsPrepared(prepared.snapshot), base);
    ok := restored.Some?;
  }

  // ---------------------------------------------------------------- failing

  /** Which requests, success documents and failure documents pass their contracts. */
  datatype Contracts = Contracts(request: Request -> bool, bundle: Bundle -> bool, failure: FailureArtifacts -> bool)

  datatype Outcome = Outcome(commit: CommitResult, bundle: Option<Bundle>, failure: Option<FailureArtifacts>, published: bool)

  function ResultOf(d: Directory): Option<ResultStatus> {
    if ResultName in d && d[ResultName].ResultDocument? then Some(d[ResultName].result.status) else None
  }

  /** The directory reports this failure: its result and its diagnostics. */
  predicate ReportsFailure(d: Directory, failure: FailureArtifacts) {
    ResultName in d && d[ResultName] == ResultDocument(failure.result) && HoldsDiagnostics(d, failure.diagnostics)
  }

  /** What the store may show after a failure: nothing new, or a report of it with this journal. */
  ghost predicate FailureShown(before: Option<Directory>, journal: Option<Journal>, failure: FailureArtifacts, after: Option<Directory>) {
    after == before || (before.None? && after.Some? && JournalIn(after.value) == journal && ReportsFailure(after.value, failure))
  }

  function StagedJournal(stage: Option<Directory>): Option<Journal> {
    if stage.Some? then JournalIn(stage.value) else None
  }

  /** Publishes the evidence of a failure, as far as that works, and reports the cause. */
  method Fail(store: Store, contracts: Contracts, request: Request, prepared: PreparedChangeSet, commit: CommitResult,
              transaction: Transaction?, cause: Errors)
    returns (outcome: Outcome, errors: Errors)
    requires cause != {}
    requires transaction != null ==> transaction.store == store && !transaction.published
    modifies store, transaction
    ensures store.faults >= old(store.faults)
    ensures outcome.commit == commit && outcome.bundle.None? && cause <= errors <= cause + {ArtifactStoreFailed}
    ensures FailureShown(old(store.published), if transaction == null then None else StagedJournal(old(store.stage)),
                         BuildFailureArtifacts(request, prepared, errors, commit), store.published)
    ensures outcome.published ==>
              errors == cause && outcome.failure == Some(BuildFailureArtifacts(request, prepared, cause, commit)) && store.published.Some? &&
              FailurePublished(if transaction == null then None else old(store.stage), store.published.value, outcome.failure.value)
    ensures !outcome.published && store.faults == old(store.faults) ==>
              !contracts.failure(BuildFailureArtifacts(request, prepared, cause, commit)) ||
              !FailurePublishable(old(store.stage), old(store.published), transaction != null)
    ensures store.faults == old(store.faults) && (transaction != null || old(store.stage).None?) ==> store.stage.None?
  {
    var failure := BuildFailureArtifacts(request, prepared, cause, commit);
    if !contracts.failure(failure) {
      if transaction != null {
        var cleaned := transaction.Cleanup();
      }
      return Outcome(commit, None, None, false), cause + {ArtifactStoreFailed};
    }
    var shown := PublishFailure(store, failure, transaction);
    if !shown {
      if transaction != null {
        var cleaned := transaction.Cleanup();
      }
      return Outcome(commit, None, None, false), cause + {ArtifactStoreFailed};
    }
    return Outcome(commit, None, Some(failure), true), cause;
  }

  /** A committed target that can be taken back: it is as predicted, the way back is known, and there is room for it. */
  ghost predicate RestoreReady(t: Tree, base: Files, request: Request, prepared: PreparedChangeSet, bundle: Bundle, stage: Option<Directory>) {
    AsExpected(t.files, bundle.finalSnapshot) && AsExpected(base, prepared.snapshot) &&
    SafePath(RecoveryRoot(request)) && !Exists(t, RecoveryRoot(request)) && !Blocked(t, RecoveryRoot(request)) &&
    AllBackupsHeld(stage, Effective(prepared.changes))
  }

  /** Brings a committed target back, records that in the staged journal, and fails. */
  method RollbackAndFail(fs: Filesystem, contracts: Contracts, request: Request, prepared: PreparedChangeSet, bundle: Bundle, transaction: Transaction,
                         given: CommitResult, cause: Errors, ghost base: Files)
    returns (outcome: Outcome, errors: Errors)
    requires cause != {} && RollbackFailed !in cause && !transaction.published
    requires Closed(fs.tree) && fs.tree.files == Overlaid(base, Effective(prepared.changes)) && ChangesFit(base, prepared.changes)
    modifies fs, transaction, transaction.store
    ensures Closed(fs.tree) && fs.faults >= old(fs.faults) && transaction.store.faults >= old(transaction.store.faults)
    ensures old(fs.seen) <= fs.seen
    ensures outcome.bundle.None? && cause <= errors && !outcome.commit.atomicCommitCompleted
    ensures outcome.commit.targetUnchanged ==> fs.tree.files == base
    ensures outcome.commit.rollbackAttempted && (outcome.commit.rollbackCompleted <==> outcome.commit.targetUnchanged)
    ensures RollbackFailed in errors <==> !outcome.commit.targetUnchanged
    ensures MixedOutside(RecoveryRoot(request), base, old(fs.tree.files), fs.tree.files)
    ensures AllOrNothing(RecoveryRoot(request), base, old(fs.tree.files), fs.tree.files) || fs.faults > old(fs.faults)
    ensures InsideKept(RecoveryRoot(request), old(fs.tree.files), fs.tree.files)
    ensures MarkShown(old(transaction.store.published), old(transaction.store.stage), outcome.commit.rollbackCompleted,
                      transaction.store.faults == old(transaction.store.faults),
                      BuildFailureArtifacts(request, prepared, errors, outcome.commit), transaction.store.published)
    ensures RollbackFailed in errors && RestoreReady(old(fs.tree), base, request, prepared, bundle, old(transaction.store.stage)) ==>
              fs.faults + transaction.store.faults > old(fs.faults + transaction.store.faults)
    ensures transaction.store.faults == old(transaction.store.faults) ==> transaction.store.stage.None?
  {
    var store := transaction.store;
    var restored := RestorePreparedChanges(fs, request, prepared, transaction, bundle.finalSnapshot, base);
    var commit := given.(atomicCommitCompleted := false, rollbackAttempted := true, rollbackCompleted := restored, targetUnchanged := restored);
    ghost var stage := store.stage;
    var marked := transaction.MarkRolledBack(restored);
    RewrittenJournal(stage, store.stage, marked, restored);
    var all := if restored then cause else cause + {RollbackFailed};
    outcome, errors := Fail(store, contracts, request, prepared, commit, transaction, all);
  }

  /** The journal once it says how a rollback ended. */
  function RollbackMarked(journal: Option<Journal>, completed: bool): Option<Journal> {
    if journal.None? then None else Some(InState(journal.value, if completed then StateRolledBack else StateRollbackFailed, true, completed))
  }

  /** A published failure shows how the rollback ended, unless `calm` fails: an operation of the store did, or the way was blocked. */
  ghost predicate MarkShown(before: Option<Directory>, stage: Option<Directory>, completed: bool, calm: bool, failure: FailureArtifacts,
                            after: Option<Directory>) {
    FailureShown(before, RollbackMarked(StagedJournal(stage), completed), failure, after) ||
    (!(calm && Markable(stage)) && FailureShown(before, StagedJournal(stage), failure, after))
  }

  /** The staged journal can be rewritten. */
  predicate Markable(stage: Option<Directory>) {
    StagedJournal(stage).Some? && JournalNext !in stage.value
  }

  lemma RewrittenJournal(before: Option<Directory>, after: Option<Directory>, ok: bool, completed: bool)
    requires before.Some? <==> after.Some?
    requires after.Some? ==> JournalRewritten(before.value, after.value, ok, if completed then StateRolledBack else StateRollbackFailed, true, completed)
    ensures StagedJournal(after) == if after.Some? && ok then RollbackMarked(StagedJournal(before), completed) else StagedJournal(before)
  {
    if after.Some? && !ok {
      assert JournalIn(after.value) == JournalIn(after.value - {JournalNext});
      assert JournalIn(before.value) == JournalIn(before.value - {JournalNext});
    }
  }

  // ---------------------------------------------------------------- publishing

  /**
   What an execution may do to the final directory. `log` is what its journal, if any, records; a committed journal
   takes a target `seen` to match, and only a success publishes a succeeded result.
   */
  ghost predicate PublishedSoundly(before: Option<Directory>, after: Option<Directory>, log: seq<JournalFile>, seen: bool, ok: bool) {
    (before.Some? ==> after == before) &&
    (before.None? && after.Some? ==>
       (StateOf(after.value) == Some(StateCommitted) ==> seen) &&
       (LogOf(after.value).Some? ==> LogOf(after.value).value == log) &&
       (ResultOf(after.value) == Some(Succeeded) <==> ok) && (ok ==> StateOf(after.value) == Some(StateCommitted)))
  }

  /**
   What a newly published failure says: the result reports the errors and the flags of the commit, and the journal, if
   any, that a rollback succeeded only if it did and the target is the old one, that it failed only if it did, and one
   of the two, with the flags of the commit, if there was a rollback and no operation of the store failed.
   */
  ghost predicate FailureRecorded(request: Request, prepared: PreparedChangeSet, base: Files, now: Files, before: Option<Directory>,
                                  after: Option<Directory>, r: CommitResult, errors: Errors, calm: bool) {
    before.None? && after.Some? && errors != {} ==>
      ReportsFailure(after.value, BuildFailureArtifacts(request, prepared, errors, r)) &&
      match JournalIn(after.value)
      case None => !r.rollbackAttempted
      case Some(j) =>
        (j.state == StateRolledBack ==>
           Project(now, WorkRoots(request)) == Project(base, WorkRoots(request)) && r.rollbackCompleted && RollbackFailed !in errors) &&
        (j.state == StateRollbackFailed ==> RollbackFailed in errors && !r.rollbackCompleted) &&
        (j.state == StateRolledBack || j.state == StateRollbackFailed ==>
           j.rollbackAttempted == r.rollbackAttempted && j.rollbackCompleted == r.rollbackCompleted) &&
        (if r.rollbackAttempted then calm ==> j.state == StateRolledBack || j.state == StateRollbackFailed else j.state == StatePrepared)
  }

  /** A failure marked with the end of its rollback is recorded truthfully. */
  lemma MarkRecorded(request: Request, prepared: PreparedChangeSet, base: Files, now: Files, before: Option<Directory>, stage: Option<Directory>,
                     after: Option<Directory>, r: CommitResult, errors: Errors, calm: bool)
    requires MarkShown(before, stage, r.rollbackCompleted, calm, BuildFailureArtifacts(request, prepared, errors, r), after)
    requires StagedJournal(stage).Some?
    requires StagedJournal(stage).value.state == StatePrepared || StagedJournal(stage).value.state == StateCommitted
    requires r.rollbackAttempted && (r.rollbackCompleted <==> RollbackFailed !in errors)
    requires r.rollbackCompleted ==> Project(now, WorkRoots(request)) == Project(base, WorkRoots(request))
    ensures FailureRecorded(request, prepared, base, now, before, after, r, errors, calm && Markable(stage))
  {
  }

  lemma FailureSound(before: Option<Directory>, stage: Option<Directory>, completed: bool, calm: bool, failure: FailureArtifacts,
                     after: Option<Directory>, log: seq<JournalFile>, seen: bool)
    requires MarkShown(before, stage, completed, calm, failure, after) && failure.result.status != Succeeded
    requires StagedJournal(stage).Some? && StagedJournal(stage).value.changes == log
    requires StagedJournal(stage).value.state == StateCommitted ==> seen
    ensures PublishedSoundly(before, after, log, seen, false)
  {
  }

  lemma BundleFacts(b: Bundle, d: Directory)
    requires IsBundleDirectory(d, b)
    ensures JournalName in d && d[JournalName] == JournalDocument(b.journal) && JournalNext !in d
    ensures forall p | p in b.backups :: BackupName(p) in d && d[BackupName(p)] == Blob(b.backups[p])
  {
    assert InBundle(b, JournalName) && !InBundle(b, JournalNext);
    forall p | p in b.backups
      ensures BackupName(p) in d && d[BackupName(p)] == Blob(b.backups[p])
    {
      assert InBundle(b, BackupName(p));
    }
  }

  lemma RewrittenOthers(d: Directory, after: Directory, ok: bool)
    requires JournalNext !in d && JournalRewritten(d, after, ok, StateCommitted, false, false)
    ensures forall n | n in d && n != JournalName :: n in after && after[n] == d[n]
    ensures ok ==> JournalName in d && d[JournalName].JournalDocument? && JournalName in after &&
                   after[JournalName] == JournalDocument(InState(d[JournalName].journal, StateCommitted, false, false))
    ensures !ok ==> JournalIn(after) == JournalIn(d)
  {
    forall n | n in d && n != JournalName
      ensures n in after && after[n] == d[n]
    {
      assert n in d - {JournalNext};
      if !ok {
        assert n in after - {JournalNext};
      }
    }
    if !ok {
      assert JournalIn(after) == JournalIn(after - {JournalNext}) == JournalIn(d - {JournalNext}) == JournalIn(d);
    }
  }

  /** The staged bundle after its journal has been marked, or not. */
  lemma MarkedBundle(b: Bundle, d: Directory, after: Directory, ok: bool)
    requires IsBundleDirectory(d, b) && JournalRewritten(d, after, ok, StateCommitted, false, false)
    ensures forall p | p in b.backups :: BackupName(p) in after && after[BackupName(p)] == Blob(b.backups[p])
    ensures JournalIn(after) == Some(if ok then InState(b.journal, StateCommitted, false, false) else b.journal)
    ensures ok ==> HoldsBundle(after, b) && JournalNext !in after
  {
    BundleFacts(b, d);
    RewrittenOthers(d, after, ok);
    if ok {
      forall n | InBundle(b, n)
        ensures n in after && after[n] == CommittedForm(DocumentFor(b, n))
      {
        assert n in d;
      }
    }
  }

  /** The staged journal is the bundle's, perhaps already marked as committed. */
  predicate HoldsJournalOf(bundle: Bundle, stage: Option<Directory>) {
    StagedJournal(stage) == Some(bundle.journal) || StagedJournal(stage) == Some(InState(bundle.journal, StateCommitted, false, false))
  }

  /** Marks the journal and publishes; on failure the staged documents still allow a recovery. */
  method MarkAndPublish(transaction: Transaction, bundle: Bundle) returns (ok: bool)
    requires !transaction.published && transaction.store.published.None?
    requires transaction.store.stage.Some? && IsBundleDirectory(transaction.store.stage.value, bundle)
    modifies transaction, transaction.store
    ensures transaction.store.faults >= old(transaction.store.faults)
    ensures ok ==> transaction.store.published.Some? && HoldsBundle(transaction.store.published.value, bundle) &&
                   JournalNext !in transaction.store.published.value &&
                   StateOf(transaction.store.published.value) == Some(StateCommitted) && transaction.store.stage.None?
    ensures !ok ==> transaction.store.published.None? && !transaction.published && transaction.store.stage.Some? &&
                    HoldsJournalOf(bundle, transaction.store.stage) &&
                    transaction.store.faults > old(transaction.store.faults) &&
                    forall p | p in bundle.backups ::
                      BackupName(p) in transaction.store.stage.value && transaction.store.stage.value[BackupName(p)] == Blob(bundle.backups[p])
  {
    ghost var staged := transaction.store.stage.value;
    BundleFacts(bundle, staged);
    ok := transaction.MarkCommitted();
    MarkedBundle(bundle, staged, transaction.store.stage.value, ok);
    if ok {
      ok := transaction.Publish();
    }
  }

  /** What one inspection found is still on record after later ones. */
  lemma StillSeen(files: Files, start: nat, before: seq<Files>, after: seq<Files>)
    requires start <= |before| && before <= after && files in before[start..]
    ensures files in after[start..]
  {
    var i :| 0 <= i < |before[start..]| && before[start..][i] == files;
    assert after[start..][i] == files;
  }

  /** Gives up a committed target that could not be published; `seen` tells whether an inspection has found it as predicted. */
  method TakeBack(fs: Filesystem, contracts: Contracts, request: Request, prepared: PreparedChangeSet, bundle: Bundle, transaction: Transaction,
                  commit: CommitResult, cause: Errors, ghost base: Files, ghost seen: bool)
    returns (outcome: Outcome, errors: Errors)
    requires cause != {} && RollbackFailed !in cause && !transaction.published && transaction.store.published.None?
    requires Closed(fs.tree) && fs.tree.files == Overlaid(base, Effective(prepared.changes)) && ChangesFit(base, prepared.changes)
    requires HoldsJournalOf(bundle, transaction.store.stage) && bundle.journal.state == StatePrepared
    requires StagedJournal(transaction.store.stage).value.state == StateCommitted ==> seen
    modifies fs, transaction, transaction.store
    ensures Closed(fs.tree) && fs.faults >= old(fs.faults) && transaction.store.faults >= old(transaction.store.faults)
    ensures old(fs.seen) <= fs.seen && errors != {}
    ensures Attempt(request, base, old(fs.tree.files), fs.tree.files, outcome.commit, errors)
    ensures AllOrNothingFor(request, base, old(fs.tree.files), fs.tree.files) || fs.faults > old(fs.faults)
    ensures PublishedSoundly(None, transaction.store.published, bundle.journal.changes, seen, false)
    ensures FailureRecorded(request, prepared, base, fs.tree.files, None, transaction.store.published, outcome.commit, errors,
                            transaction.store.faults == old(transaction.store.faults) && Markable(old(transaction.store.stage)))
    ensures RollbackFailed in errors && RestoreReady(old(fs.tree), base, request, prepared, bundle, old(transaction.store.stage)) ==>
              fs.faults + transaction.store.faults > old(fs.faults + transaction.store.faults)
    ensures transaction.store.faults == old(transaction.store.faults) ==> transaction.store.stage.None?
  {
    ghost var after, staged, storeFaults := fs.tree.files, transaction.store.stage, transaction.store.faults;
    EffectiveDistinct(prepared.changes);
    OverlaidKeeps(base, Effective(prepared.changes));
    outcome, errors := RollbackAndFail(fs, contracts, request, prepared, bundle, transaction, commit, cause, base);
    ghost var calm := transaction.store.faults == storeFaults;
    FailureSound(None, staged, outcome.commit.rollbackCompleted, calm, BuildFailureArtifacts(request, prepared, errors, outcome.commit),
                 transaction.store.published, bundle.journal.changes, seen);
    MarkRecorded(request, prepared, base, fs.tree.files, None, staged, transaction.store.published, outcome.commit, errors, calm);
    FailedPublication(request, base, after, fs.tree.files, outcome.commit, errors);
    WiderAllOrNothing(request, base, after, fs.tree.files);
  }

  /** From a committed target to a published result, or back. */
  method PublishCommitted(fs: Filesystem, contracts: Contracts, request: Request, prepared: PreparedChangeSet, bundle: Bundle, transaction: Transaction,
                          commit: CommitResult, ghost base: Files)
    returns (outcome: Outcome, errors: Errors)
    requires !transaction.published && transaction.store.published.None?
    requires transaction.store.stage.Some? && IsBundleDirectory(transaction.store.stage.value, bundle)
    requires Closed(fs.tree) && fs.tree.files == Overlaid(base, Effective(prepared.changes)) && ChangesFit(base, prepared.changes)
    requires CanRestore(prepared, base, bundle) && commit.atomicCommitCompleted && AsExpected(fs.tree.files, bundle.finalSnapshot)
    modifies fs, transaction, transaction.store
    ensures Closed(fs.tree) && fs.faults >= old(fs.faults) && transaction.store.faults >= old(transaction.store.faults)
    ensures old(fs.seen) <= fs.seen
    ensures errors != {} ==> Attempt(request, base, old(fs.tree.files), fs.tree.files, outcome.commit, errors)
    ensures errors == {} ==> fs.tree == old(fs.tree) && outcome == Outcome(commit, Some(bundle), None, true) &&
                             transaction.store.published.Some? && HoldsBundle(transaction.store.published.value, bundle) &&
                             JournalNext !in transaction.store.published.value
    ensures PublishedSoundly(None, transaction.store.published, bundle.journal.changes,
                             old(fs.tree.files) in fs.seen[|old(fs.seen)|..], errors == {})
    ensures FailureRecorded(request, prepared, base, fs.tree.files, None, transaction.store.published, outcome.commit, errors,
                            transaction.store.faults == old(transaction.store.faults))
    ensures errors != {} ==> fs.faults + transaction.store.faults > old(fs.faults + transaction.store.faults)
    ensures AllOrNothingFor(request, base, old(fs.tree.files), fs.tree.files) ||
            fs.faults + transaction.store.faults > old(fs.faults + transaction.store.faults) + 1
    ensures RollbackFailed in errors && RestoreReady(old(fs.tree), base, request, prepared, bundle, old(transaction.store.stage)) ==>
              fs.faults + transaction.store.faults > old(fs.faults + transaction.store.faults) + 1
    ensures transaction.store.faults == old(transaction.store.faults) ==> transaction.store.stage.None?
  {
    var store := transaction.store;
    ghost var start, after := |fs.seen|, fs.tree.files;
    BundleFacts(bundle, store.stage.value);
    var drift := VerifySnapshot(fs, bundle.finalSnapshot);
    if drift.Some? {
      outcome, errors := TakeBack(fs, contracts, request, prepared, bundle, transaction, commit, {TargetChanged}, base, false);
      return;
    }
    ghost var seen := fs.seen;
    assert seen[start..] == [after];
    var published := MarkAndPublish(transaction, bundle);
    if !published {
      StagedBackups(bundle, prepared.changes, base, store.stage.value);
      outcome, errors := TakeBack(fs, contracts, request, prepared, bundle, transaction, commit, {ArtifactStoreFailed}, base, true);
      StillSeen(after, start, seen, fs.seen);
      return;
    }
    HeldResult(bundle, store.published.value);
    return Outcome(commit, Some(bundle), None, true), {};
  }

  lemma HeldResult(b: Bundle, d: Directory)
    requires HoldsBundle(d, b)
    ensures StateOf(d) == Some(StateCommitted) && ResultOf(d) == Some(b.result.status) && LogOf(d) == Some(b.journal.changes)
  {
    assert InBundle(b, JournalName) && InBundle(b, ResultName);
  }

  // ---------------------------------------------------------------- the transaction

  /** Working directories aside, the target is as it was or as it was to become. */
  ghost predicate AllOrNothingFor(request: Request, base: Files, after: Files, now: Files) {
    Project(now, WorkRoots(request)) == Project(base, WorkRoots(request)) ||
    Project(now, WorkRoots(request)) == Project(after, WorkRoots(request))
  }

  /** What an error other than a failed rollback leaves: the old target, or all of the new one and an uncleaned staging directory. */
  ghost predicate ErrorLeaves(request: Request, base: Files, after: Files, now: Files, r: CommitResult) {
    Project(now, WorkRoots(request)) == Project(base, WorkRoots(request)) ||
    (Project(now, WorkRoots(request)) == Project(after, WorkRoots(request)) &&
     !r.stagingCleanupCompleted && !r.rollbackAttempted && !r.targetUnchanged && !r.atomicCommitCompleted)
  }

  /**
   What every exit of an attempt guarantees about the target:
   - every path holds its old or its new content, new files in the generator's own working directories aside;
   - `targetUnchanged` tells the truth about all but those, and about everything if the staging directory was cleaned up;
   - success installs everything, and an error other than a failed rollback leaves the old target, or all of the new one
     with only the cleanup undone.
   */
  ghost predicate Attempt(request: Request, base: Files, after: Files, now: Files, r: CommitResult, errors: Errors) {
    TargetSafe(WorkRoots(request), base, after, now) &&
    (errors == {} ==> now == after) &&
    (errors != {} && RollbackFailed !in errors ==> ErrorLeaves(request, base, after, now, r)) &&
    (r.targetUnchanged ==> Project(now, WorkRoots(request)) == Project(base, WorkRoots(request))) &&
    (r.targetUnchanged && r.stagingCleanupCompleted ==> now == base) &&
    (RollbackFailed in errors ==> !r.targetUnchanged)
  }

  lemma AttemptAllOrNothing(request: Request, base: Files, after: Files, now: Files, r: CommitResult, errors: Errors)
    requires Attempt(request, base, after, now, r, errors) && RollbackFailed !in errors
    ensures AllOrNothingFor(request, base, after, now)
  {
  }

  /** A failed commit is such an attempt. */
  lemma FailedCommit(request: Request, base: Files, after: Files, now: Files, r: CommitResult, errors: Errors)
    requires CommitOutcome(request.stagingPath, base, after, now, r, errors) && errors != {}
    ensures Attempt(request, base, after, now, r, errors)
  {
    OneRootSafe(request.stagingPath, WorkRoots(request), base, after, now);
    if SameOutside(request.stagingPath, base, now) {
      WiderSame(base, now, request.stagingPath, WorkRoots(request));
      if r.targetUnchanged && r.stagingCleanupCompleted {
        CleanedUp(request.stagingPath, base, now);
      }
    } else if SameOutside(request.stagingPath, after, now) {
      WiderSame(after, now, request.stagingPath, WorkRoots(request));
    }
  }

  /** So is a failure after the commit, whether or not the target could be taken back. */
  lemma FailedPublication(request: Request, base: Files, after: Files, now: Files, r: CommitResult, errors: Errors)
    requires MixedOutside(RecoveryRoot(request), base, after, now) && InsideKept(RecoveryRoot(request), after, now)
    requires base.Keys <= after.Keys && errors != {}
    requires RollbackFailed in errors <==> !r.targetUnchanged
    requires r.targetUnchanged ==> now == base
    ensures Attempt(request, base, after, now, r, errors)
  {
    OneRootSafe(RecoveryRoot(request), WorkRoots(request), base, after, now);
  }

  /** What is all or nothing outside the recovery directory is so outside both working directories. */
  lemma WiderAllOrNothing(request: Request, base: Files, after: Files, now: Files)
    ensures AllOrNothing(RecoveryRoot(request), base, after, now) ==> AllOrNothingFor(request, base, after, now)
  {
    if SameOutside(RecoveryRoot(request), base, now) {
      WiderSame(base, now, RecoveryRoot(request), WorkRoots(request));
    }
    if SameOutside(RecoveryRoot(request), after, now) {
      WiderSame(after, now, RecoveryRoot(request), WorkRoots(request));
    }
  }

  lemma SuccessfulAttempt(request: Request, base: Files, after: Files, r: CommitResult)
    requires r.targetUnchanged ==> after == base
    ensures Attempt(request, base, after, after, r, {})
  {
  }

  lemma OverlaidKeeps(base: Files, todo: seq<FileChange>)
    requires DistinctKeys(todo, ChangePath)
    ensures base.Keys <= Overlaid(base, todo).Keys
  {
    forall p | p in base
      ensures p in Overlaid(base, todo)
    {
      if c :| c in todo && c.path == p {
        OverlaidAt(base, todo, c);
      } else {
        OverlaidElsewhere(base, todo, p);
      }
    }
  }

  /** The target after a commit passes the final check: the prediction has come true. */
  lemma FinalCheckPasses(base: Files, locked: Owners, request: Request, prepared: PreparedChangeSet, final: TargetSnapshot)
    requires IsSnapshot(base, locked, prepared.snapshot.files) && AllSafe(base) && ChangesFit(base, prepared.changes)
    requires forall c | c in prepared.changes :: SafePath(c.path)
    requires IsPrediction(prepared.snapshot.files, prepared.changes, final.files) && final.checksum == ChecksumOf(final.files)
    requires DigestsHold(prepared.changes)
    ensures AsExpected(Overlaid(base, Effective(prepared.changes)), final)
  {
    var todo := Effective(prepared.changes);
    EffectiveDistinct(prepared.changes);
    PredictionComesTrue(base, locked, prepared.snapshot.files, prepared.changes, final.files);
    forall p | p in Overlaid(base, todo)
      ensures SafePath(p)
    {
      if c :| c in todo && c.path == p {
      } else {
        OverlaidElsewhere(base, todo, p);
      }
    }
  }

  /** What the execution worked with, for its guarantees to speak of; `MadeFor` says which change set that is. */
  datatype Run = Run(prepared: PreparedChangeSet, locked: Owners, attempted: bool)

  /** What a journal records of these changes. */
  function LogFor(changes: seq<FileChange>): seq<JournalFile> {
    seq(|changes|, i requires 0 <= i < |changes| => JournalFileFor(changes[i]))
  }

  /** The change set was made for this target, and its changes fit it. */
  ghost predicate MadeFor(base: Files, previous: seq<LockedFile>, request: Request, rendered: seq<RenderedFile>, run: Run) {
    IsLockIndex(previous, run.locked) && IsPrepared(base, run.locked, request, rendered, run.prepared) &&
    (NoneUnset(run.prepared.changes) ==> ChangesFit(base, run.prepared.changes))
  }

  /** The published documents allow the change set to be taken back. */
  ghost predicate Reversible(base: Files, prepared: PreparedChangeSet, bundle: Bundle, published: Option<Directory>) {
    NoneUnset(prepared.changes) && ChangesFit(base, prepared.changes) && DigestsHold(prepared.changes) && AllSafe(base) &&
    (forall c | c in prepared.changes :: SafePath(c.path)) && CanRestore(prepared, base, bundle) &&
    published.Some? && HoldsBundle(published.value, bundle) && JournalNext !in published.value && NoEmptyBlob(bundle)
  }

  /** A successful execution leaves every empty file of the target as it is: its backup could not have been staged. */
  lemma EmptyFilesStay(base: Files, prepared: PreparedChangeSet, bundle: Bundle, published: Option<Directory>, c: FileChange)
    requires Reversible(base, prepared, bundle, published)
    requires c in prepared.changes && c.path in base
    ensures base[c.path] == "" ==> c.action == Unchanged
  {
    if c.action == Updated {
      assert base[c.path] == bundle.backups[c.path];
    }
  }

  /** What is known of a change set and its bundle once the bundle has been built. */
  ghost predicate Ready(base: Files, locked: Owners, prepared: PreparedChangeSet, bundle: Bundle) {
    IsSnapshot(base, locked, prepared.snapshot.files) && prepared.snapshot.checksum == ChecksumOf(prepared.snapshot.files) &&
    AllSafe(base) && CanRestore(prepared, base, bundle) && bundle.finalSnapshot.checksum == ChecksumOf(bundle.finalSnapshot.files) &&
    (NoneUnset(prepared.changes) ==>
       ChangesFit(base, prepared.changes) && (forall c | c in prepared.changes :: SafePath(c.path)) &&
       IsPrediction(prepared.snapshot.files, prepared.changes, bundle.finalSnapshot.files))
  }

  /** Among the inspections `looks`, one found the target with every change in it, exactly as the predicted snapshot says. */
  ghost predicate SeenCommitted(base: Files, prepared: PreparedChangeSet, looks: seq<Files>) {
    NoneUnset(prepared.changes) && Overlaid(base, Effective(prepared.changes)) in looks && exists final: TargetSnapshot ::
      IsPrediction(prepared.snapshot.files, prepared.changes, final.files) &&
      AsExpected(Overlaid(base, Effective(prepared.changes)), final)
  }

  /** Nothing was left in the staging directory, so there had been nothing, and the target is literally unchanged. */
  lemma CleanedUp(stage: Path, base: Files, now: Files)
    requires SameOutside(stage, base, now) && InsideKept(stage, base, now) && NothingInside(stage, now)
    ensures now == base
  {
    assert forall p | p in base && Within(stage, p) :: p in now;
    NothingInsideProject(stage, base);
    NothingInsideProject(stage, now);
  }

  /** After a successful commit the target can be taken back, if the recovery directory was clear before it. */
  lemma ReadyToRestore(t0: Tree, t: Tree, locked: Owners, request: Request, prepared: PreparedChangeSet, bundle: Bundle, stage: Directory)
    requires Ready(t0.files, locked, prepared, bundle) && NoneUnset(prepared.changes)
    requires IsBundleDirectory(stage, bundle) && DigestsHold(prepared.changes) && PathsCommittable(request, prepared.changes)
    requires RecoveryClear(t0, request, prepared.changes) && t.files == Overlaid(t0.files, Effective(prepared.changes))
    requires OnlyNeededDirectories(request.stagingPath, Effective(prepared.changes), t0.dirs, t.dirs)
    requires forall a | Ancestor(a, request.stagingPath) :: a !in t0.files
    ensures RestoreReady(t, t0.files, request, prepared, bundle, Some(stage))
  {
    FinalCheckPasses(t0.files, locked, request, prepared, bundle.finalSnapshot);
    RecoveryStaysClear(t0, t, request, prepared.changes);
    BundleFacts(bundle, stage);
    StagedBackups(bundle, prepared.changes, t0.files, stage);
  }

  /** Marks the staged journal after a failed commit and publishes the failure. */
  method FailCommit(contracts: Contracts, request: Request, prepared: PreparedChangeSet, bundle: Bundle, transaction: Transaction,
                    commit: CommitResult, failed: Errors, ghost base: Files, ghost after: Files, ghost now: Files)
    returns (outcome: Outcome, errors: Errors)
    requires CommitOutcome(request.stagingPath, base, after, now, commit, failed)
    requires failed != {} && !transaction.published && transaction.store.published.None?
    requires transaction.store.stage.Some? && IsBundleDirectory(transaction.store.stage.value, bundle)
    requires bundle.journal.state == StatePrepared
    modifies transaction, transaction.store
    ensures transaction.store.faults >= old(transaction.store.faults)
    ensures errors != {} && (RollbackFailed in errors <==> RollbackFailed in failed)
    ensures Attempt(request, base, after, now, outcome.commit, errors)
    ensures PublishedSoundly(None, transaction.store.published, bundle.journal.changes, false, false)
    ensures FailureRecorded(request, prepared, base, now, None, transaction.store.published, outcome.commit, errors,
                            transaction.store.faults == old(transaction.store.faults))
    ensures transaction.store.faults == old(transaction.store.faults) ==> transaction.store.stage.None?
  {
    BundleFacts(bundle, transaction.store.stage.value);
    ghost var staged := transaction.store.stage;
    if commit.rollbackAttempted {
      var marked := transaction.MarkRolledBack(commit.rollbackCompleted);
      RewrittenJournal(staged, transaction.store.stage, marked, commit.rollbackCompleted);
    }
    outcome, errors := Fail(transaction.store, contracts, request, prepared, commit, transaction, failed);
    FailedCommit(request, base, after, now, commit, failed);
  }

  /** How many failing operations an attempt takes and still is all or nothing. */
  ghost function Spare(t: Tree, prepared: PreparedChangeSet): nat {
    if AllFit(t, Effective(prepared.changes)) then 1 else 0
  }

  /** And how many its rollback takes without failing. */
  ghost function SpareRollingBack(t: Tree, request: Request, prepared: PreparedChangeSet): nat {
    if RecoveryClear(t, request, prepared.changes) then Spare(t, prepared) else 0
  }

  /** Commits and publishes a staged generation. */
  method CommitAndPublish(fs: Filesystem, contracts: Contracts, request: Request, prepared: PreparedChangeSet, bundle: Bundle,
                          transaction: Transaction, ghost locked: Owners)
    returns (outcome: Outcome, errors: Errors)
    requires Closed(fs.tree) && !transaction.published && transaction.store.published.None?
    requires transaction.store.stage.Some? && IsBundleDirectory(transaction.store.stage.value, bundle)
    requires Ready(fs.tree.files, locked, prepared, bundle) && NoEmptyBlob(bundle)
    modifies fs, transaction, transaction.store
    ensures Closed(fs.tree) && fs.faults >= old(fs.faults) && transaction.store.faults >= old(transaction.store.faults)
    ensures old(fs.seen) <= fs.seen
    ensures Attempt(request, old(fs.tree.files), Overlaid(old(fs.tree.files), Effective(prepared.changes)), fs.tree.files, outcome.commit, errors)
    ensures errors == {} ==> old(fs.tree.dirs) <= fs.tree.dirs && outcome.published && outcome.bundle == Some(bundle) &&
                             outcome.commit.atomicCommitCompleted && !Exists(fs.tree, request.stagingPath) &&
                             Reversible(old(fs.tree.files), prepared, bundle, transaction.store.published) &&
                             AsExpected(fs.tree.files, bundle.finalSnapshot) &&
                             OnlyNeededDirectories(request.stagingPath, Effective(prepared.changes), old(fs.tree.dirs), fs.tree.dirs)
    ensures !NoneUnset(prepared.changes) ==> fs.tree.files == old(fs.tree.files)
    ensures PublishedSoundly(None, transaction.store.published, bundle.journal.changes,
                             SeenCommitted(old(fs.tree.files), prepared, fs.seen[|old(fs.seen)|..]), errors == {})
    ensures FailureRecorded(request, prepared, old(fs.tree.files), fs.tree.files, None, transaction.store.published, outcome.commit, errors,
                            transaction.store.faults == old(transaction.store.faults))
    ensures errors != {} && CommitPossible(old(fs.tree), request, prepared) ==>
              fs.faults + transaction.store.faults > old(fs.faults + transaction.store.faults)
    ensures RollbackFailed in errors ==>
              NoneUnset(prepared.changes) && fs.faults + transaction.store.faults > old(fs.faults + transaction.store.faults) +
              SpareRollingBack(old(fs.tree), request, prepared)
    ensures AllOrNothingFor(request, old(fs.tree.files), Overlaid(old(fs.tree.files), Effective(prepared.changes)), fs.tree.files) ||
            (NoneUnset(prepared.changes) &&
             fs.faults + transaction.store.faults > old(fs.faults + transaction.store.faults) + Spare(old(fs.tree), prepared))
    ensures transaction.store.faults == old(transaction.store.faults) ==> transaction.store.stage.None?
  {
    ghost var t0, start := fs.tree, |fs.seen|;
    ghost var base := t0.files;
    ghost var after := Overlaid(base, Effective(prepared.changes));
    var commit, failed := CommitChanges(fs, request, prepared);
    if failed != {} {
      outcome, errors := FailCommit(contracts, request, prepared, bundle, transaction, commit, failed, base, after, fs.tree.files);
      if RollbackFailed !in errors {
        AttemptAllOrNothing(request, base, after, fs.tree.files, outcome.commit, errors);
      }
      return;
    }
    FinalCheckPasses(base, locked, request, prepared, bundle.finalSnapshot);
    ghost var seen := fs.seen;
    if RecoveryClear(t0, request, prepared.changes) {
      ReadyToRestore(t0, fs.tree, locked, request, prepared, bundle, transaction.store.stage.value);
    }
    outcome, errors := PublishCommitted(fs, contracts, request, prepared, bundle, transaction, commit, base);
    LaterSeen(after, start, seen, fs.seen);
    if errors == {} {
      SuccessfulAttempt(request, base, after, commit);
    }
  }

  lemma LaterSeen(files: Files, start: nat, seen: seq<Files>, now: seq<Files>)
    requires start <= |seen| && seen <= now
    ensures files in now[|seen|..] ==> files in now[start..]
  {
    assert now[start..][|seen| - start..] == now[|seen|..];
  }

  lemma BundleReady(base: Files, locked: Owners, request: Request, rendered: seq<RenderedFile>, plan: Plan,
                    prepared: PreparedChangeSet, bundle: Bundle)
    requires IsPrepared(base, locked, request, rendered, prepared) && AllSafe(base)
    requires RequestMatchesPlan(request, plan) && CanRestore(prepared, base, bundle)
    requires bundle.finalSnapshot.checksum == ChecksumOf(bundle.finalSnapshot.files)
    requires DistinctKeys(prepared.snapshot.files, FilePath) && DistinctKeys(prepared.changes, ChangePath) ==>
               IsPrediction(prepared.snapshot.files, prepared.changes, bundle.finalSnapshot.files)
    ensures Ready(base, locked, prepared, bundle)
    ensures DistinctKeys(request.desiredOutputs, OutputPath)
  {
    DistinctPaths(request.desiredOutputs);
    SnapshotDistinct(base, locked, prepared.snapshot.files);
    if NoneUnset(prepared.changes) {
      PreparedFits(base, locked, request, rendered, prepared);
      forall c | c in prepared.changes
        ensures SafePath(c.path)
      {
        var o :| o in request.desiredOutputs && FromOutput(c, o, rendered, base, locked);
        OneChangeFits(c, o, rendered, base, locked);
        assert ValidOutput(o);
      }
    }
  }

  const Untouched := CommitResult([], [], true, false, false, false, true)
  const Replayed := CommitResult([], [], true, true, false, false, true)
  const NoResult := CommitResult([], [], false, false, false, false, false)
  const NoOutcome := Outcome(NoResult, None, None, false)
  const NoRun := Run(NothingPrepared, map[], false)

  /** Answers from an already published generation, without writing anything. */
  method Replay(fs: Filesystem, contracts: Contracts, bundle: Bundle) returns (outcome: Outcome, errors: Errors)
    modifies fs`faults, fs`seen
    ensures fs.faults >= old(fs.faults) && old(fs.seen) <= fs.seen
    ensures errors == {} ==> outcome == Outcome(Replayed, Some(bundle), None, true) && AsExpected(fs.tree.files, bundle.finalSnapshot) &&
                             contracts.bundle(bundle)
    ensures errors != {} ==> outcome == NoOutcome && errors == {ArtifactConflict}
    ensures errors != {} && contracts.bundle(bundle) && AsExpected(fs.tree.files, bundle.finalSnapshot) ==> fs.faults > old(fs.faults)
  {
    var drift := VerifySnapshot(fs, bundle.finalSnapshot);
    if !contracts.bundle(bundle) || drift.Some? {
      return NoOutcome, {ArtifactConflict};
    }
    return Outcome(Replayed, Some(bundle), None, true), {};
  }

  /** There is room for the outputs: none below another, the staging path free. */
  ghost predicate RoomFor(t: Tree, request: Request) {
    Unnested(DesiredPaths(request)) && !Exists(t, request.stagingPath) && !Blocked(t, request.stagingPath)
  }

  /** No directory stands in the place of an output, unless the output is forked and so left alone. */
  ghost predicate NoDirectoryInPlace(t: Tree, request: Request, previous: seq<LockedFile>) {
    forall o | o in request.desiredOutputs && o.path in t.dirs :: exists f :: f in previous && f.path == o.path && f.ownership == Forked
  }

  /** No empty generated file is to get content: its backup could not be staged. */
  ghost predicate NoEmptyUpdate(files: Files, previous: seq<LockedFile>, rendered: seq<RenderedFile>) {
    forall f, r | f in previous && f.ownership == Generated && At(files, f.path) == Some("") && r in rendered && r.spec.path == f.path ::
      r.bytes == ""
  }

  ghost predicate DocumentsPass(contracts: Contracts, request: Request, plan: Plan) {
    forall prepared, b | IsBundleFor(request, plan, prepared, b) :: contracts.bundle(b)
  }

  /** What a prepared change set needs, besides working operations, to be committed and published. */
  ghost predicate Deliverable(t: Tree, contracts: Contracts, request: Request, plan: Option<Plan>, evidence: map<Path, Bytes>,
                              rendered: seq<RenderedFile>, previousPresent: bool)
  {
    Bundled(request, plan, evidence, previousPresent) &&
    DocumentsPass(contracts, request, plan.value) && request.operation != Validate && MergeSpecsValid(request) &&
    RenderedSoundly(rendered) && RoomFor(t, request)
  }

  /** Everything a first execution needs besides working operations, empty files and directories in the way aside. */
  ghost predicate Startable(t: Tree, contracts: Contracts, request: Request, plan: Option<Plan>, evidence: map<Path, Bytes>,
                            rendered: Result<seq<RenderedFile>, Error>, previous: seq<LockedFile>, previousPresent: bool)
  {
    contracts.request(request) && rendered.Ok? && Preparable(t.files, previous, request, rendered.value) &&
    Deliverable(t, contracts, request, plan, evidence, rendered.value, previousPresent)
  }

  /** Everything a first execution needs besides working operations. */
  ghost predicate Runnable(t: Tree, contracts: Contracts, request: Request, plan: Option<Plan>, evidence: map<Path, Bytes>,
                           rendered: Result<seq<RenderedFile>, Error>, previous: seq<LockedFile>, previousPresent: bool)
  {
    Startable(t, contracts, request, plan, evidence, rendered, previous, previousPresent) &&
    NoEmptyUpdate(t.files, previous, rendered.value) && NoDirectoryInPlace(t, request, previous)
  }

  /** A published generation that can be loaded, passes its contracts, and whose target is still as it left it. */
  ghost predicate Repeatable(files: Files, published: Option<Directory>, contracts: Contracts, request: Request) {
    published.Some? && contracts.request(request) && Loadable(published.value) &&
    forall b | ReadsBack(published.value, b) :: contracts.bundle(b) && AsExpected(files, b.finalSnapshot)
  }

  lemma OutputOf(files: Files, locked: Owners, request: Request, rendered: seq<RenderedFile>, prepared: PreparedChangeSet, c: FileChange)
    returns (o: OutputSpec)
    requires IsPrepared(files, locked, request, rendered, prepared) && NoneUnset(prepared.changes) && c in prepared.changes
    ensures o in request.desiredOutputs && o.path == c.path && NothingOverlaps(files, o.path)
    ensures RenderedSoundly(rendered) ==> c.sha == Sha256(c.bytes)
  {
    o :| o in request.desiredOutputs && FromOutput(c, o, rendered, files, locked);
    OneChangeFits(c, o, rendered, files, locked);
    var file :| file in rendered && IsChangeFor(c, o, file, files, locked);
  }

  /** A prepared change finds its target as it was prepared against. */
  lemma ChangeFits(t: Tree, previous: seq<LockedFile>, locked: Owners, request: Request, rendered: seq<RenderedFile>,
                   prepared: PreparedChangeSet, c: FileChange)
    requires IsLockIndex(previous, locked) && IsPrepared(t.files, locked, request, rendered, prepared)
    requires NoneUnset(prepared.changes) && ChangesFit(t.files, prepared.changes) && NoDirectoryInPlace(t, request, previous)
    requires c in prepared.changes && c.action != Unchanged
    ensures FitsTarget(t, c)
  {
    var o :| o in request.desiredOutputs && FromOutput(c, o, rendered, t.files, locked);
    OneChangeFits(c, o, rendered, t.files, locked);
    assert forall f | f in previous && f.path == o.path :: f == locked[o.path];
    assert o.path !in t.dirs;
    NothingInTheWay(t, o.path);
  }

  lemma PreparedFitTarget(t: Tree, previous: seq<LockedFile>, locked: Owners, request: Request, rendered: seq<RenderedFile>,
                          prepared: PreparedChangeSet)
    requires IsLockIndex(previous, locked) && IsPrepared(t.files, locked, request, rendered, prepared)
    requires NoneUnset(prepared.changes) && ChangesFit(t.files, prepared.changes) && NoDirectoryInPlace(t, request, previous)
    ensures AllFit(t, Effective(prepared.changes))
  {
    forall c | c in Effective(prepared.changes)
      ensures FitsTarget(t, c)
    {
      ChangeFits(t, previous, locked, request, rendered, prepared, c);
    }
  }

  lemma NothingInTheWay(t: Tree, p: Path)
    requires NothingOverlaps(t.files, p)
    ensures !Blocked(t, p)
  {
  }

  /** A change set prepared for a target with room for it can be committed there. */
  lemma PreparedCommits(t: Tree, previous: seq<LockedFile>, locked: Owners, request: Request, rendered: seq<RenderedFile>, prepared: PreparedChangeSet)
    requires IsLockIndex(previous, locked) && IsPrepared(t.files, locked, request, rendered, prepared)
    requires AllSafe(t.files) && RequestPathsValid(request)
    requires DistinctKeys(request.desiredOutputs, OutputPath) && NoDirectoryInPlace(t, request, previous)
    requires request.operation != Validate && MergeSpecsValid(request) && RenderedSoundly(rendered) && RoomFor(t, request)
    ensures NoneUnset(prepared.changes) && CommitPossible(t, request, prepared) && UpdatesFit(t.files, prepared.changes)
  {
    AllFilledIn(t.files, locked, request, rendered, prepared);
    PreparedFits(t.files, locked, request, rendered, prepared);
    PreparedFitTarget(t, previous, locked, request, rendered, prepared);
    forall c | c in prepared.changes
      ensures PathCommittable(request, c) && c.path in DesiredPaths(request)
      ensures c.sha == Sha256(c.bytes)
    {
      var o := OutputOf(t.files, locked, request, rendered, prepared, c);
      assert WorkPathsClear(request, o.path);
    }
    EffectiveAppliable(t, prepared.changes, DesiredPaths(request));
    assert Matches(t.files, prepared.snapshot.files);
  }

  lemma EffectiveAppliable(t: Tree, changes: seq<FileChange>, paths: set<Path>)
    requires AllFit(t, Effective(changes)) && Unnested(paths)
    requires forall c | c in changes :: c.path in paths && c.sha == Sha256(c.bytes)
    ensures AllAppliable(t, Effective(changes))
  {
    forall p | p in PathSet(Effective(changes))
      ensures p in paths
    {
      var c :| c in Effective(changes) && c.path == p;
    }
    forall c | c in Effective(changes)
      ensures Appliable(t, c)
    {
      assert FitsTarget(t, c);
    }
  }

  /** A replaced file has content: no region fits into an empty one, and no empty generated file gets any. */
  lemma UpdatedHasContent(files: Files, previous: seq<LockedFile>, locked: Owners, rendered: seq<RenderedFile>, c: FileChange, o: OutputSpec)
    requires IsLockIndex(previous, locked) && RenderedSoundly(rendered) && NoEmptyUpdate(files, previous, rendered)
    requires FromOutput(c, o, rendered, files, locked) && c.action == Updated
    ensures c.path in files && files[c.path] != ""
  {
    var file :| file in rendered && IsChangeFor(c, o, file, files, locked);
    if c.ownership == Integration {
      SpecMarkers(o.merge.value);
      var d := AcceptedIsCarried(files[c.path], BeginMarker(o.merge.value), EndMarker(o.merge.value), file.bytes);
    } else {
      assert locked[c.path] in previous && file.spec.path == c.path;
    }
  }

  lemma BackupsHaveContent(files: Files, previous: seq<LockedFile>, locked: Owners, request: Request, rendered: seq<RenderedFile>,
                           prepared: PreparedChangeSet, b: Bundle)
    requires IsLockIndex(previous, locked) && IsPrepared(files, locked, request, rendered, prepared) && NoneUnset(prepared.changes)
    requires RenderedSoundly(rendered) && NoEmptyUpdate(files, previous, rendered) && BacksUp(b.backups, prepared.changes, files)
    ensures forall p | p in b.backups :: b.backups[p] != ""
  {
    forall p | p in b.backups
      ensures b.backups[p] != ""
    {
      var c :| c in prepared.changes && c.action == Updated && c.path == p;
      var o :| o in request.desiredOutputs && FromOutput(c, o, rendered, files, locked);
      UpdatedHasContent(files, previous, locked, rendered, c, o);
    }
  }

  /** Every output that is not forked has its change, and with it a file. */
  lemma OutputDelivered(files: Files, locked: Owners, request: Request, rendered: seq<RenderedFile>, p: PreparedChangeSet, o: OutputSpec)
    requires IsPrepared(files, locked, request, rendered, p) && NoneUnset(p.changes) && ChangesFit(files, p.changes)
    requires o in request.desiredOutputs && !LockedForked(locked, o.path)
    ensures o.path in Overlaid(files, Effective(p.changes))
  {
    assert Covered(o, p.changes, rendered, files, locked);
    var c :| c in p.changes && FromOutput(c, o, rendered, files, locked);
    OneChangeFits(c, o, rendered, files, locked);
    EffectiveDistinct(p.changes);
    AfterChange(files, p.changes, c);
  }

  /** Nor does a directory stand where an output was delivered. */
  lemma DeliveredNoDirectory(base: Tree, previous: seq<LockedFile>, request: Request, rendered: seq<RenderedFile>, run: Run, now: Tree,
                             outcome: Outcome, published: Option<Directory>)
    requires MadeFor(base.files, previous, request, rendered, run) && Delivered(request, base, run, now, outcome, published) && Closed(now)
    ensures NoDirectoryInPlace(base, request, previous)
  {
    var p, locked := run.prepared, run.locked;
    forall o | o in request.desiredOutputs && o.path in base.dirs
      ensures exists f :: f in previous && f.path == o.path && f.ownership == Forked
    {
      if LockedForked(locked, o.path) {
        assert locked[o.path] in previous;
      } else {
        OutputDelivered(base.files, locked, request, rendered, p, o);
        assert false;
      }
    }
  }

  /** A generated file of the target has its change, with the bytes rendered for it. */
  lemma ChangeOfGenerated(base: Files, previous: seq<LockedFile>, locked: Owners, request: Request, rendered: seq<RenderedFile>,
                          p: PreparedChangeSet, f: LockedFile)
    returns (c: FileChange, file: RenderedFile)
    requires IsLockIndex(previous, locked) && IsPrepared(base, locked, request, rendered, p) && NoneUnset(p.changes)
    requires f in previous && f.ownership == Generated && f.path in base
    ensures c in p.changes && c.path == f.path && file in rendered && file.spec.path == f.path
    ensures c.bytes == file.bytes && c.sha == file.sha && (c.action == Unchanged ==> c.sha == Sha256(base[f.path]))
  {
    var e := EntryFor(base, locked, f.path);
    assert e in p.snapshot.files && Managed(e.ownership);
    var o :| o in request.desiredOutputs && o.path == f.path;
    assert Covered(o, p.changes, rendered, base, locked);
    c :| c in p.changes && FromOutput(c, o, rendered, base, locked);
    file :| file in rendered && IsChangeFor(c, o, file, base, locked);
  }

  /** The other direction: what was delivered gave no empty generated file any content. */
  lemma DeliveredNoEmptyUpdate(base: Files, previous: seq<LockedFile>, request: Request, rendered: seq<RenderedFile>, run: Run,
                               bundle: Bundle, published: Option<Directory>)
    requires MadeFor(base, previous, request, rendered, run) && Reversible(base, run.prepared, bundle, published)
    requires RenderedSoundly(rendered) && DistinctKeys(rendered, RenderedPath)
    ensures NoEmptyUpdate(base, previous, rendered)
  {
    var p, locked := run.prepared, run.locked;
    forall f, r | f in previous && f.ownership == Generated && At(base, f.path) == Some("") && r in rendered && r.spec.path == f.path
      ensures r.bytes == ""
    {
      var c, file := ChangeOfGenerated(base, previous, locked, request, rendered, p, f);
      assert RenderedPath(file) == RenderedPath(r);
      EmptyFilesStay(base, p, bundle, published, c);
    }
  }

  ghost function After(base: Files, run: Run): Files {
    if run.attempted then Overlaid(base, Effective(run.prepared.changes)) else base
  }

  /** Without an attempt the target is not touched, whatever the result; an attempt guarantees what `Attempt` says. */
  ghost predicate TargetKept(request: Request, base: Tree, run: Run, now: Tree, r: CommitResult, errors: Errors) {
    if run.attempted then
      Attempt(request, base.files, After(base.files, run), now.files, r, errors) &&
      (!NoneUnset(run.prepared.changes) ==> now.files == base.files)
    else now == base
  }

  /** Success: exactly the prepared changes and no staging directory, seen in the target, and published so that they can be taken back. */
  ghost predicate Delivered(request: Request, base: Tree, run: Run, now: Tree, outcome: Outcome, published: Option<Directory>) {
    run.attempted && now.files == After(base.files, run) && !Exists(now, request.stagingPath) && outcome.published && outcome.bundle.Some? &&
    AsExpected(now.files, outcome.bundle.value.finalSnapshot) && Reversible(base.files, run.prepared, outcome.bundle.value, published) &&
    base.dirs <= now.dirs && OnlyNeededDirectories(request.stagingPath, Effective(run.prepared.changes), base.dirs, now.dirs)
  }

  /** The published documents describe this change set for this plan. */
  ghost predicate Documented(request: Request, plan: Option<Plan>, run: Run, outcome: Outcome) {
    plan.Some? && outcome.bundle.Some? && IsBundleFor(request, plan.value, run.prepared, outcome.bundle.value) &&
    IsPrediction(run.prepared.snapshot.files, run.prepared.changes, outcome.bundle.value.finalSnapshot.files)
  }

  /** Request and documents have passed their contracts. */
  ghost predicate Validated(contracts: Contracts, request: Request, outcome: Outcome) {
    contracts.request(request) && outcome.bundle.Some? && contracts.bundle(outcome.bundle.value)
  }

  /** What an execution may do to the final directory, and what it has seen if that says committed. */
  ghost predicate PublishingSound(base: Files, run: Run, before: Option<Directory>, after: Option<Directory>, looks: seq<Files>, ok: bool) {
    PublishedSoundly(before, after, LogFor(run.prepared.changes), run.attempted && SeenCommitted(base, run.prepared, looks), ok)
  }

  /** A preparation that left diagnostics was refused, with the target as it is, for the reason its error names. */
  ghost predicate RefusalExplained(files: Files, previous: seq<LockedFile>, request: Request, run: Run, errors: Errors, faulty: bool) {
    run.prepared.diagnostics != [] ==>
      !run.attempted && exists e :: e in errors && RefusalTrue(files, previous, run.locked, request, e, run.prepared, faulty)
  }

  ghost predicate RefusalTrue(files: Files, previous: seq<LockedFile>, locked: Owners, request: Request, e: Error,
                              prepared: PreparedChangeSet, faulty: bool) {
    RefusalSound(files, locked, request, e, prepared, faulty) && (IsConflict(e) ==> IsLockIndex(previous, locked))
  }

  /** How many failing operations an execution takes and still is all or nothing. */
  ghost function Tolerated(t: Tree, request: Request, previous: seq<LockedFile>): nat {
    if NoDirectoryInPlace(t, request, previous) then 1 else 0
  }

  /** The recovery directory is free, and no output leads into it. */
  ghost predicate RecoveryFree(t: Tree, request: Request) {
    SafePath(RecoveryRoot(request)) && !Exists(t, RecoveryRoot(request)) &&
    forall o | o in request.desiredOutputs :: !Within(RecoveryRoot(request), o.path)
  }

  /** And how many a rollback takes without failing. */
  ghost function ToleratedRollingBack(t: Tree, request: Request, previous: seq<LockedFile>): nat {
    if RecoveryFree(t, request) then Tolerated(t, request, previous) else 0
  }

  lemma SpareTolerated(base: Tree, previous: seq<LockedFile>, request: Request, rendered: seq<RenderedFile>, run: Run)
    requires MadeFor(base.files, previous, request, rendered, run)
    ensures NoneUnset(run.prepared.changes) ==> Tolerated(base, request, previous) <= Spare(base, run.prepared)
    ensures NoneUnset(run.prepared.changes) ==> ToleratedRollingBack(base, request, previous) <= SpareRollingBack(base, request, run.prepared)
  {
    if NoneUnset(run.prepared.changes) {
      SpareIsTolerated(base, previous, request, rendered, run);
    }
  }

  lemma SpareIsTolerated(base: Tree, previous: seq<LockedFile>, request: Request, rendered: seq<RenderedFile>, run: Run)
    requires MadeFor(base.files, previous, request, rendered, run) && NoneUnset(run.prepared.changes)
    ensures Tolerated(base, request, previous) <= Spare(base, run.prepared)
    ensures RecoveryFree(base, request) ==> RecoveryClear(base, request, run.prepared.changes)
  {
    if NoDirectoryInPlace(base, request, previous) {
      PreparedFitTarget(base, previous, run.locked, request, rendered, run.prepared);
    }
    if RecoveryFree(base, request) {
      forall c | c in run.prepared.changes
        ensures !Within(RecoveryRoot(request), c.path)
      {
        var o := OutputOf(base.files, run.locked, request, rendered, run.prepared, c);
      }
    }
  }

  /**
   Executes a request. `rendered` is what the renderer returned; `run` records what was done.
   - `TargetKept`, `Delivered` and `PublishingSound` say what every exit and what success guarantees;
   - a published generation is never touched again;
   - without a failing operation the execution is all or nothing, and so it is with one if no directory stands in the
     place of an output;
   - without a failing operation, a first execution that has everything it needs succeeds.
   */
  method Execute(fs: Filesystem, store: Store, contracts: Contracts, request: Request, plan: Option<Plan>, evidence: map<Path, Bytes>,
                 rendered: Result<seq<RenderedFile>, Error>, previous: seq<LockedFile>, previousPresent: bool)
    returns (outcome: Outcome, errors: Errors, ghost run: Run)
    requires Closed(fs.tree)
    modifies fs, store
    ensures Closed(fs.tree) && fs.faults >= old(fs.faults) && store.faults >= old(store.faults) && old(fs.seen) <= fs.seen
    ensures TargetKept(request, old(fs.tree), run, fs.tree, outcome.commit, errors)
    ensures PublishingSound(old(fs.tree.files), run, old(store.published), store.published, fs.seen[|old(fs.seen)|..], errors == {})
    ensures run.attempted ==> rendered.Ok? && MadeFor(old(fs.tree.files), previous, request, rendered.value, run) &&
                              old(store.published).None?
    ensures FailureRecorded(request, run.prepared, old(fs.tree.files), fs.tree.files, old(store.published), store.published, outcome.commit, errors,
                            store.faults == old(store.faults))
    ensures errors == {} && old(store.published).None? ==>
              Delivered(request, old(fs.tree), run, fs.tree, outcome, store.published) && Documented(request, plan, run, outcome)
    ensures RefusalExplained(old(fs.tree.files), previous, request, run, errors, fs.faults > old(fs.faults))
    ensures errors == {} && old(store.published).Some? ==>
              outcome.bundle.Some? && outcome.commit == Replayed && AsExpected(fs.tree.files, outcome.bundle.value.finalSnapshot) &&
              ReadsBack(store.published.value, outcome.bundle.value)
    ensures errors == {} ==> Validated(contracts, request, outcome)
    ensures old(store.published).Some? ==> fs.tree == old(fs.tree) && store.stage == old(store.stage) && store.published == old(store.published)
    ensures run.attempted && RollbackFailed in errors ==>
              fs.faults + store.faults > old(fs.faults + store.faults) + ToleratedRollingBack(old(fs.tree), request, previous)
    ensures fs.faults + store.faults <= old(fs.faults + store.faults) + Tolerated(old(fs.tree), request, previous) ==>
              AllOrNothingFor(request, old(fs.tree.files), After(old(fs.tree.files), run), fs.tree.files)
    ensures errors != {} && old(store.published).None? && old(store.stage).None? &&
            Runnable(old(fs.tree), contracts, request, plan, evidence, rendered, previous, previousPresent) ==>
              fs.faults + store.faults > old(fs.faults + store.faults)
    ensures errors != {} && Repeatable(old(fs.tree.files), old(store.published), contracts, request) ==>
              fs.faults + store.faults > old(fs.faults + store.faults)
    ensures store.faults == old(store.faults) && old(store.stage).None? ==> store.stage.None?
  {
    run := NoRun;
    var answered;
    answered, outcome, errors := AnswerEarly(fs, store, contracts, request);
    if answered {
      return;
    }
    ghost var fits := store.stage.None? && Runnable(fs.tree, contracts, request, plan, evidence, rendered, previous, previousPresent);
    outcome, errors, run := ExecuteFirst(fs, store, contracts, request, plan, evidence, rendered, previous, previousPresent, fits);
  }

  /** An invalid request, an unreadable generation and a published one are answered without writing anything. */
  method AnswerEarly(fs: Filesystem, store: Store, contracts: Contracts, request: Request)
    returns (answered: bool, outcome: Outcome, errors: Errors)
    modifies fs`faults, fs`seen, store`faults
    ensures fs.faults >= old(fs.faults) && store.faults >= old(store.faults) && old(fs.seen) <= fs.seen
    ensures answered && errors == {} ==>
              store.published.Some? && outcome.bundle.Some? && outcome.commit == Replayed &&
              AsExpected(fs.tree.files, outcome.bundle.value.finalSnapshot) &&
              ReadsBack(store.published.value, outcome.bundle.value) && Validated(contracts, request, outcome)
    ensures answered && errors != {} ==> outcome == NoOutcome && RollbackFailed !in errors
    ensures answered && errors != {} && fs.faults + store.faults == old(fs.faults + store.faults) ==>
              !contracts.request(request) || (store.published.Some? && !Repeatable(fs.tree.files, store.published, contracts, request))
    ensures !answered ==> store.published.None? && contracts.request(request) && fs.faults == old(fs.faults) && fs.seen == old(fs.seen)
  {
    if !contracts.request(request) {
      return true, NoOutcome, {InvalidInput};
    }
    var loaded := store.LoadPublished();
    if loaded.LoadFailed? {
      return true, NoOutcome, {loaded.error};
    }
    answered, outcome, errors := loaded.Found?, NoOutcome, {};
    if loaded.Found? {
      outcome, errors := Replay(fs, contracts, loaded.bundle);
    }
  }

  /**
   With everything else in place and no failing operation, a first execution succeeds exactly if no empty generated file
   is to get content and no directory stands in the place of an output.
   */
  method ExecuteStartable(fs: Filesystem, store: Store, contracts: Contracts, request: Request, plan: Option<Plan>, evidence: map<Path, Bytes>,
                          rendered: Result<seq<RenderedFile>, Error>, previous: seq<LockedFile>, previousPresent: bool)
    returns (outcome: Outcome, errors: Errors)
    requires Closed(fs.tree) && store.published.None? && store.stage.None?
    modifies fs, store
    ensures fs.faults + store.faults == old(fs.faults + store.faults) &&
            Startable(old(fs.tree), contracts, request, plan, evidence, rendered, previous, previousPresent) ==>
              (errors == {} <==> NoEmptyUpdate(old(fs.tree.files), previous, rendered.value) &&
                                 NoDirectoryInPlace(old(fs.tree), request, previous))
  {
    ghost var t0, run := fs.tree, NoRun;
    outcome, errors, run := Execute(fs, store, contracts, request, plan, evidence, rendered, previous, previousPresent);
    if errors == {} && Startable(t0, contracts, request, plan, evidence, rendered, previous, previousPresent) {
      DeliveredNoEmptyUpdate(t0.files, previous, request, rendered.value, run, outcome.bundle.value, store.published);
      DeliveredNoDirectory(t0, previous, request, rendered.value, run, fs.tree, outcome, store.published);
    }
  }

  /** A request with nothing published yet: prepare the target, then go on. */
  method ExecuteFirst(fs: Filesystem, store: Store, contracts: Contracts, request: Request, plan: Option<Plan>, evidence: map<Path, Bytes>,
                      rendered: Result<seq<RenderedFile>, Error>, previous: seq<LockedFile>, previousPresent: bool, ghost fits: bool)
    returns (outcome: Outcome, errors: Errors, ghost run: Run)
    requires Closed(fs.tree) && store.published.None? && contracts.request(request)
    requires fits ==> store.stage.None? && Runnable(fs.tree, contracts, request, plan, evidence, rendered, previous, previousPresent)
    modifies fs, store
    ensures Closed(fs.tree) && fs.faults >= old(fs.faults) && store.faults >= old(store.faults) && old(fs.seen) <= fs.seen
    ensures TargetKept(request, old(fs.tree), run, fs.tree, outcome.commit, errors)
    ensures PublishingSound(old(fs.tree.files), run, None, store.published, fs.seen[|old(fs.seen)|..], errors == {})
    ensures run.attempted ==> rendered.Ok? && MadeFor(old(fs.tree.files), previous, request, rendered.value, run)
    ensures FailureRecorded(request, run.prepared, old(fs.tree.files), fs.tree.files, None, store.published, outcome.commit, errors,
                            store.faults == old(store.faults))
    ensures errors == {} ==> Delivered(request, old(fs.tree), run, fs.tree, outcome, store.published) && Documented(request, plan, run, outcome)
    ensures errors == {} ==> Validated(contracts, request, outcome)
    ensures RefusalExplained(old(fs.tree.files), previous, request, run, errors, fs.faults > old(fs.faults))
    ensures errors != {} && fits ==> fs.faults + store.faults > old(fs.faults + store.faults)
    ensures run.attempted && RollbackFailed in errors ==>
              fs.faults + store.faults > old(fs.faults + store.faults) + ToleratedRollingBack(old(fs.tree), request, previous)
    ensures fs.faults + store.faults <= old(fs.faults + store.faults) + Tolerated(old(fs.tree), request, previous) ==>
              AllOrNothingFor(request, old(fs.tree.files), After(old(fs.tree.files), run), fs.tree.files)
    ensures store.faults == old(store.faults) && old(store.stage).None? ==> store.stage.None?
  {
    ghost var t0, start := fs.tree, |fs.seen|;
    run := NoRun;
    var prepared, built, locked := PrepareBundle(fs, contracts, request, plan, evidence, rendered, previous, previousPresent, fits);
    assert fs.tree == t0;
    if built.Err? {
      run := Run(prepared, locked, false);
      outcome, errors := FailUnstarted(store, contracts, request, prepared, built.error, run, t0, fs.seen[start..]);
      return;
    }
    assert MadeFor(t0.files, previous, request, rendered.value, Run(prepared, locked, true));
    outcome, errors, run := ExecuteStaged(fs, store, contracts, request, prepared, built.value, locked, start, fits);
    SpareTolerated(t0, previous, request, rendered.value, Run(prepared, locked, true));
  }

  /** A failure before anything is staged or written. */
  method FailUnstarted(store: Store, contracts: Contracts, request: Request, prepared: PreparedChangeSet, e: Error,
                       ghost run: Run, ghost t: Tree, ghost looks: seq<Files>)
    returns (outcome: Outcome, errors: Errors)
    requires !run.attempted && run.prepared == prepared
    modifies store
    ensures store.faults >= old(store.faults) && {e} <= errors <= {e, ArtifactStoreFailed}
    ensures outcome.commit == Untouched && outcome.bundle.None?
    ensures TargetKept(request, t, run, t, outcome.commit, errors)
    ensures PublishingSound(t.files, run, old(store.published), store.published, looks, false)
    ensures FailureRecorded(request, run.prepared, t.files, t.files, old(store.published), store.published, outcome.commit, errors,
                            store.faults == old(store.faults))
    ensures store.faults == old(store.faults) && old(store.stage).None? ==> store.stage.None?
  {
    outcome, errors := Fail(store, contracts, request, prepared, Untouched, null, {e});
  }

  /** What has been seen since the preparation has been seen since the start. */
  lemma LaterLooks(base: Files, prepared: PreparedChangeSet, start: nat, seen: seq<Files>, now: seq<Files>)
    requires start <= |seen| && seen <= now
    ensures SeenCommitted(base, prepared, now[|seen|..]) ==> SeenCommitted(base, prepared, now[start..])
  {
    assert now[start..][|seen| - start..] == now[|seen|..];
  }

  /** Compares the request with the target, and builds and checks the documents. */
  method PrepareBundle(fs: Filesystem, contracts: Contracts, request: Request, plan: Option<Plan>, evidence: map<Path, Bytes>,
                       rendered: Result<seq<RenderedFile>, Error>, previous: seq<LockedFile>, previousPresent: bool, ghost fits: bool)
    returns (prepared: PreparedChangeSet, r: Result<Bundle, Error>, ghost locked: Owners)
    requires Closed(fs.tree)
    requires fits ==> Runnable(fs.tree, contracts, request, plan, evidence, rendered, previous, previousPresent)
    modifies fs`faults, fs`seen
    ensures fs.faults >= old(fs.faults) && old(fs.seen) <= fs.seen
    ensures r.Ok? ==> rendered.Ok? && MadeFor(fs.tree.files, previous, request, rendered.value, Run(prepared, locked, true)) &&
                      Ready(fs.tree.files, locked, prepared, r.value) && plan.Some? && IsBundleFor(request, plan.value, prepared, r.value)
    ensures r.Ok? && fits ==> CommitPossible(fs.tree, request, prepared) && NoEmptyBlob(r.value)
    ensures prepared.diagnostics != [] ==>
              r.Err? && RefusalTrue(fs.tree.files, previous, locked, request, r.error, prepared, fs.faults > old(fs.faults))
    ensures r.Ok? ==> contracts.bundle(r.value)
    ensures r.Err? && fits ==> fs.faults > old(fs.faults)
  {
    ghost var t := fs.tree;
    if rendered.Err? {
      return NothingPrepared, Err(rendered.error), map[];
    }
    var refused;
    prepared, refused, locked := PrepareTarget(fs, request, rendered.value, previous);
    assert fs.tree == t;
    if refused.Some? {
      return prepared, Err(refused.value), locked;
    }
    if fits {
      DeliverableCommits(t, contracts, previous, locked, request, plan, evidence, rendered.value, prepared, previousPresent);
    }
    r := BuildBundle(fs, contracts, request, plan, evidence, rendered.value, prepared, previousPresent, locked, fits);
    assert fs.tree == t;
    if r.Ok? && fits {
      BackupsHaveContent(t.files, previous, locked, request, rendered.value, prepared, r.value);
    }
  }

  lemma DeliverableCommits(t: Tree, contracts: Contracts, previous: seq<LockedFile>, locked: Owners, request: Request, plan: Option<Plan>,
                           evidence: map<Path, Bytes>, rendered: seq<RenderedFile>, prepared: PreparedChangeSet, previousPresent: bool)
    requires AllSafe(t.files) && RequestPathsValid(request)
    requires IsLockIndex(previous, locked) && IsPrepared(t.files, locked, request, rendered, prepared)
    requires Deliverable(t, contracts, request, plan, evidence, rendered, previousPresent) && NoDirectoryInPlace(t, request, previous)
    ensures CommitPossible(t, request, prepared) && NoneUnset(prepared.changes)
    ensures Bundleable(request, plan, evidence, prepared, previousPresent, t.files)
  {
    DistinctPaths(request.desiredOutputs);
    PreparedCommits(t, previous, locked, request, rendered, prepared);
  }

  /** Builds the documents of a generation and holds them against their contracts. */
  method BuildBundle(fs: Filesystem, contracts: Contracts, request: Request, plan: Option<Plan>, evidence: map<Path, Bytes>,
                     rendered: seq<RenderedFile>, prepared: PreparedChangeSet, previousPresent: bool,
                     ghost locked: Owners, ghost fits: bool)
    returns (r: Result<Bundle, Error>)
    requires AllSafe(fs.tree.files) && RequestPathsValid(request) && IsPrepared(fs.tree.files, locked, request, rendered, prepared)
    requires fits ==> Bundleable(request, plan, evidence, prepared, previousPresent, fs.tree.files) &&
                      DocumentsPass(contracts, request, plan.value)
    modifies fs`faults
    ensures fs.faults >= old(fs.faults)
    ensures r.Ok? ==> Ready(fs.tree.files, locked, prepared, r.value) && ScanAccepts(PathsOf(request.desiredOutputs)) &&
                      plan.Some? && IsBundleFor(request, plan.value, prepared, r.value)
    ensures r.Ok? ==> forall p | p in r.value.evidence :: r.value.evidence[p] != ""
    ensures r.Ok? ==> contracts.bundle(r.value)
    ensures r.Err? && fits ==> fs.faults > old(fs.faults)
  {
    r := BuildArtifactBundle(fs, request, plan, evidence, prepared, previousPresent);
    if r.Err? {
      return;
    }
    if !contracts.bundle(r.value) {
      return Err(ArtifactStoreFailed);
    }
    BundleReady(fs.tree.files, locked, request, rendered, plan.value, prepared, r.value);
  }

  /** From a built bundle on: open the transaction, then commit and publish. */
  method ExecuteStaged(fs: Filesystem, store: Store, contracts: Contracts, request: Request, prepared: PreparedChangeSet, bundle: Bundle,
                       ghost locked: Owners, ghost start: nat, ghost fits: bool)
    returns (outcome: Outcome, errors: Errors, ghost run: Run)
    requires Closed(fs.tree) && Ready(fs.tree.files, locked, prepared, bundle) && start <= |fs.seen|
    requires contracts.bundle(bundle) && prepared.diagnostics == []
    requires fits ==> CommitPossible(fs.tree, request, prepared) && store.published.None? && store.stage.None? && NoEmptyBlob(bundle)
    modifies fs, store
    ensures Closed(fs.tree) && fs.faults >= old(fs.faults) && store.faults >= old(store.faults) && old(fs.seen) <= fs.seen
    ensures TargetKept(request, old(fs.tree), run, fs.tree, outcome.commit, errors)
    ensures PublishingSound(old(fs.tree.files), run, old(store.published), store.published, fs.seen[start..], errors == {})
    ensures run.attempted ==> run.prepared == prepared && run.locked == locked && old(store.published).None?
    ensures FailureRecorded(request, run.prepared, old(fs.tree.files), fs.tree.files, old(store.published), store.published, outcome.commit, errors,
                            store.faults == old(store.faults))
    ensures errors == {} && old(store.published).None? ==>
              Delivered(request, old(fs.tree), run, fs.tree, outcome, store.published) && outcome.bundle == Some(bundle)
    ensures run.prepared.diagnostics == []
    ensures errors != {} && fits ==> fs.faults + store.faults > old(fs.faults + store.faults)
    ensures run.attempted && RollbackFailed in errors ==>
              NoneUnset(prepared.changes) && fs.faults + store.faults > old(fs.faults + store.faults) +
              SpareRollingBack(old(fs.tree), request, prepared)
    ensures AllOrNothingFor(request, old(fs.tree.files), After(old(fs.tree.files), run), fs.tree.files) ||
            (NoneUnset(prepared.changes) &&
             fs.faults + store.faults > old(fs.faults + store.faults) + Spare(old(fs.tree), prepared))
    ensures store.faults == old(store.faults) && old(store.stage).None? ==> store.stage.None?
  {
    ghost var t0, seen := fs.tree, fs.seen;
    run := NoRun;
    var transaction, refused := Prepare(store, bundle);
    if refused.Some? {
      return NoOutcome, {refused.value}, run;
    }
    if transaction.published {
      outcome, errors := Replay(fs, contracts, bundle);
      return;
    }
    outcome, errors := CommitAndPublish(fs, contracts, request, prepared, bundle, transaction, locked);
    run := Run(prepared, locked, true);
    AttemptPublishing(t0.files, run, bundle, store.published, start, seen, fs.seen, errors == {});
  }

  /** What an attempt has published, in terms of everything seen since the start. */
  lemma AttemptPublishing(base: Files, run: Run, bundle: Bundle, after: Option<Directory>, start: nat, seen: seq<Files>, now: seq<Files>, ok: bool)
    requires run.attempted && CanRestore(run.prepared, base, bundle) && start <= |seen| && seen <= now
    requires PublishedSoundly(None, after, bundle.journal.changes, SeenCommitted(base, run.prepared, now[|seen|..]), ok)
    ensures PublishingSound(base, run, None, after, now[start..], ok)
  {
    LaterLooks(base, run.prepared, start, seen, now);
    assert bundle.journal.changes == LogFor(run.prepared.changes);
  }
}
