/**
 Execution and rollback as inverses: what was executed can be rolled back to exactly the files that were there
 before, unless the project has a file that was forked from the generator.
 */
module RoundTrip {
  import opened Digests
  import opened Ordering
  import opened Paths
  import opened Model
  import opened Overlay
  import opened Disk
  import opened Inspect
  import opened Target
  import opened Snapshots
  import opened Commit
  import opened Artifacts
  import opened ArtifactStore
  import opened Conservation
  import opened Recovery
  import opened Executor
  import opened RollbackExecutor

  lemma RecordedDistinct(rollback: seq<RollbackFile>, journal: seq<JournalFile>, changes: seq<FileChange>)
    requires RecordsChanges(rollback, journal, changes) && DistinctKeys(changes, ChangePath)
    ensures DistinctKeys(journal, JournalPath) && DistinctKeys(rollback, RollbackPath)
  {
    forall i, j | 0 <= i < j < |changes|
      ensures JournalPath(journal[i]) != JournalPath(journal[j]) && RollbackPath(rollback[i]) != RollbackPath(rollback[j])
    {
      assert ChangePath(changes[i]) != ChangePath(changes[j]);
    }
  }

  /** What a change did to its path is taken back. */
  lemma ChangeUndone(base: Files, changes: seq<FileChange>, rollback: seq<RollbackFile>, journal: seq<JournalFile>, i: nat)
    requires ChangesFit(base, changes) && RecordsChanges(rollback, journal, changes) && i < |changes|
    requires DistinctKeys(journal, JournalPath) && DistinctKeys(Effective(changes), ChangePath)
    ensures At(Undone(Overlaid(base, Effective(changes)), journal), changes[i].path) == At(base, changes[i].path)
  {
    assert changes[i] in changes && journal[i] in journal && journal[i] == JournalFileFor(changes[i]);
    UndoneAt(Overlaid(base, Effective(changes)), journal, journal[i]);
    AfterChange(base, changes, changes[i]);
  }

  /** Any other path has been left alone both ways. */
  lemma OtherPathUndone(base: Files, changes: seq<FileChange>, rollback: seq<RollbackFile>, journal: seq<JournalFile>, p: Path)
    requires RecordsChanges(rollback, journal, changes) && !ChangesPath(changes, p)
    ensures At(Undone(Overlaid(base, Effective(changes)), journal), p) == At(base, p)
  {
    forall c | c in journal
      ensures c.path != p
    {
      var i :| 0 <= i < |journal| && journal[i] == c;
      assert changes[i] in changes;
    }
    UndoneElsewhere(Overlaid(base, Effective(changes)), journal, p);
    OverlaidElsewhere(base, Effective(changes), p);
  }

  /** Taking back what the journal records of a change set leads back to where the change set started. */
  lemma UndoneIsBase(base: Files, changes: seq<FileChange>, rollback: seq<RollbackFile>, journal: seq<JournalFile>)
    requires ChangesFit(base, changes) && RecordsChanges(rollback, journal, changes)
    ensures Undone(Overlaid(base, Effective(changes)), journal) == base
  {
    RecordedDistinct(rollback, journal, changes);
    EffectiveDistinct(changes);
    forall p
      ensures At(Undone(Overlaid(base, Effective(changes)), journal), p) == At(base, p)
    {
      if c :| c in changes && c.path == p {
        var i :| 0 <= i < |changes| && changes[i] == c;
        ChangeUndone(base, changes, rollback, journal, i);
      } else {
        OtherPathUndone(base, changes, rollback, journal, p);
      }
    }
    SameEverywhere(Undone(Overlaid(base, Effective(changes)), journal), base);
  }

  // ---------------------------------------------------------------- recognising the snapshot from the journal

  predicate NoForkedFile(list: seq<ExistingFile>) {
    forall e | e in list :: e.ownership != Forked
  }

  lemma RebuiltValid(base: Files, changes: seq<FileChange>, rollback: seq<RollbackFile>, journal: seq<JournalFile>)
    requires ChangesFit(base, changes) && RecordsChanges(rollback, journal, changes) && AllSafe(base)
    ensures ValidLockFiles(RebuiltLocks(journal))
  {
    RecordedDistinct(rollback, journal, changes);
    RebuiltDistinct(journal);
    forall f | f in RebuiltLocks(journal)
      ensures SafePath(f.path) && f.sha != NoDigest
    {
      var c :| c in journal && c.action != Created && f == RebuiltLock(c);
      var i :| 0 <= i < |journal| && journal[i] == c;
      assert changes[i] in changes;
    }
  }

  /** The rebuilt lock lists the paths of the changes that were not creations, under the changes' owners. */
  lemma RebuiltFrom(changes: seq<FileChange>, rollback: seq<RollbackFile>, journal: seq<JournalFile>, f: LockedFile)
    requires RecordsChanges(rollback, journal, changes) && f in RebuiltLocks(journal)
    ensures exists c :: c in changes && c.action != Created && c.path == f.path && c.ownership == f.ownership
  {
    var r :| r in journal && r.action != Created && f == RebuiltLock(r);
    var i :| 0 <= i < |journal| && journal[i] == r;
    assert changes[i] in changes;
  }

  lemma RebuiltHas(changes: seq<FileChange>, rollback: seq<RollbackFile>, journal: seq<JournalFile>, c: FileChange)
    requires RecordsChanges(rollback, journal, changes) && c in changes && c.action != Created
    ensures exists f :: f in RebuiltLocks(journal) && f.path == c.path
  {
    var i :| 0 <= i < |changes| && changes[i] == c;
    assert journal[i] in journal && RebuiltLock(journal[i]) in RebuiltLocks(journal);
  }

  /** The journal knows the owner of a file, unless the file was forked. */
  lemma RebuiltOwner(base: Files, locked: Owners, request: Request, rendered: seq<RenderedFile>, prepared: PreparedChangeSet,
                     rollback: seq<RollbackFile>, journal: seq<JournalFile>, owners: Owners, p: Path)
    requires IsPrepared(base, locked, request, rendered, prepared) && NoneUnset(prepared.changes) && p in base
    requires RecordsChanges(rollback, journal, prepared.changes) && IsLockIndex(RebuiltLocks(journal), owners)
    ensures OwnerOf(owners, p) == if OwnerOf(locked, p) == Forked then Custom else OwnerOf(locked, p)
  {
    ManagedIsChanged(base, locked, request, rendered, prepared, p);
    forall c | c in prepared.changes && c.path == p
      ensures p in owners
    {
      RebuiltHas(prepared.changes, rollback, journal, c);
    }
    if p in owners {
      RebuiltFrom(prepared.changes, rollback, journal, owners[p]);
    }
  }

  /** The rebuilt lock reproduces the earlier snapshot if and only if the snapshot has no forked file. */
  lemma RebuiltCheckExactly(base: Files, locked: Owners, request: Request, rendered: seq<RenderedFile>, prepared: PreparedChangeSet,
                            rollback: seq<RollbackFile>, journal: seq<JournalFile>)
    requires IsPrepared(base, locked, request, rendered, prepared) && ChangesFit(base, prepared.changes) && AllSafe(base)
    requires RecordsChanges(rollback, journal, prepared.changes)
    ensures CheckPasses(base, AsRebuilt(RebuiltLocks(journal), prepared.snapshot.checksum)) <==> NoForkedFile(prepared.snapshot.files)
  {
    var locks, list := RebuiltLocks(journal), prepared.snapshot.files;
    RebuiltValid(base, prepared.changes, rollback, journal);
    var index := SomeIndex(locks);
    forall p | p in base
      ensures OwnerOf(index, p) == if OwnerOf(locked, p) == Forked then Custom else OwnerOf(locked, p)
    {
      RebuiltOwner(base, locked, request, rendered, prepared, rollback, journal, index, p);
    }
    if NoForkedFile(list) {
      forall p | p in base
        ensures EntryFor(base, index, p) == EntryFor(base, locked, p)
      {
        assert EntryFor(base, locked, p) in list;
      }
      assert IsSnapshot(base, index, list);
    }
    if CheckPasses(base, AsRebuilt(locks, prepared.snapshot.checksum)) {
      var owners :| IsLockIndex(locks, owners) && IsSnapshot(base, owners, list);
      LockIndexUnique(locks, owners, index);
      SnapshotDetermines(base, locked, base, index, list);
      forall e | e in list
        ensures e.ownership != Forked
      {
        assert e.path in base && OwnerOf(locked, e.path) == OwnerOf(index, e.path);
      }
    }
  }

  /** A concrete case: one forked file beside a newly created one makes every rollback check fail. */
  lemma ForkedFileBlocksRollback()
    ensures var files := map["kept.txt" := "mine"];
            var list := [ExistingFile("kept.txt", Forked, Sha256("mine"))];
            var journal := [JournalFile("new.txt", Generated, Created, NoDigest, Sha256("theirs"), None)];
            IsSnapshot(files, map["kept.txt" := BareLock("kept.txt", Forked, Sha256("mine"))], list) &&
            !CheckPasses(files, AsRebuilt(RebuiltLocks(journal), ChecksumOf(list)))
  {
    var files := map["kept.txt" := "mine"];
    var list := [ExistingFile("kept.txt", Forked, Sha256("mine"))];
    var journal := [JournalFile("new.txt", Generated, Created, NoDigest, Sha256("theirs"), None)];
    assert RebuiltLocks(journal) == [];
    assert list[0] in list;
    assert EntryFor(files, map["kept.txt" := BareLock("kept.txt", Forked, Sha256("mine"))], "kept.txt") == list[0];
  }

  // ---------------------------------------------------------------- what an execution publishes can be rolled back

  lemma PublishedDocuments(base: Files, prepared: PreparedChangeSet, bundle: Bundle, published: Option<Directory>)
    requires Reversible(base, prepared, bundle, published)
    ensures HasJournal(published) && HasRollbackPoint(published)
    ensures JournalOf(published) == InState(bundle.journal, StateCommitted, false, false) && RollbackOf(published) == bundle.rollback
    ensures AllBackupsHeld(published, Effective(prepared.changes))
  {
    assert InBundle(bundle, JournalName) && InBundle(bundle, RollbackName);
    forall c | c in Effective(prepared.changes) && c.action == Updated
      ensures HoldsBackup(published, c)
    {
      assert c.path in bundle.backups && InBundle(bundle, BackupName(c.path));
    }
  }

  lemma PublishedConsistent(base: Files, previous: seq<LockedFile>, request: Request, rendered: seq<RenderedFile>, run: Run,
                            bundle: Bundle, published: Option<Directory>)
    requires MadeFor(base, previous, request, rendered, run) && Reversible(base, run.prepared, bundle, published)
    ensures Consistent(published) && Committed(published) && BackupsReady(published)
    ensures DistinctKeys(JournalOf(published).changes, JournalPath)
  {
    var changes, journal := run.prepared.changes, bundle.journal.changes;
    PublishedDocuments(base, run.prepared, bundle, published);
    RecordedDistinct(bundle.rollback.files, journal, changes);
    forall c | c in journal
      ensures SafePath(c.path) && Managed(c.ownership) && c.action != Unset && c.after != NoDigest &&
              (c.action == Updated ==> c.before != NoDigest)
    {
      var i :| 0 <= i < |journal| && journal[i] == c;
      assert changes[i] in changes;
      var o :| o in request.desiredOutputs && FromOutput(changes[i], o, rendered, base, run.locked);
      OneChangeFits(changes[i], o, rendered, base, run.locked);
    }
    forall c | c in journal && c.action == Updated
      ensures LastRecord(bundle.rollback.files, c.path) == Some(c.before) && HoldsBackup(published, RecordedChange(c, ""))
    {
      UpdateRecorded(changes, bundle.rollback.files, journal, published, c);
    }
  }

  /** The rollback point repeats what the journal records of an updated file, and its backup is published. */
  lemma UpdateRecorded(changes: seq<FileChange>, rollback: seq<RollbackFile>, journal: seq<JournalFile>, published: Option<Directory>, c: JournalFile)
    requires RecordsChanges(rollback, journal, changes) && DistinctKeys(rollback, RollbackPath)
    requires AllBackupsHeld(published, Effective(changes)) && c in journal && c.action == Updated
    ensures LastRecord(rollback, c.path) == Some(c.before) && HoldsBackup(published, RecordedChange(c, ""))
  {
    var i :| 0 <= i < |journal| && journal[i] == c;
    assert changes[i] in Effective(changes);
    LastRecordIs(rollback, rollback[i]);
  }

  /** The committed target shows what the journal says was written. */
  lemma CommittedDigests(base: Files, changes: seq<FileChange>, rollback: seq<RollbackFile>, journal: seq<JournalFile>)
    requires ChangesFit(base, changes) && DigestsHold(changes) && RecordsChanges(rollback, journal, changes)
    ensures AfterDigestsHold(Overlaid(base, Effective(changes)), journal)
  {
    EffectiveDistinct(changes);
    forall c | c in journal
      ensures At(Overlaid(base, Effective(changes)), c.path).Some? && Sha256(At(Overlaid(base, Effective(changes)), c.path).value) == c.after
    {
      var i :| 0 <= i < |journal| && journal[i] == c;
      assert changes[i] in changes;
      AfterChange(base, changes, changes[i]);
    }
  }

  /**
   After a successful execution on an undisturbed target, the published journal undoes to the files there were
   before, and a rollback is possible exactly if its recovery directory is free and no file had been forked.
   */
  lemma RollbackOfExecution(base: Files, previous: seq<LockedFile>, request: Request, rendered: seq<RenderedFile>, run: Run,
                            bundle: Bundle, published: Option<Directory>, t: Tree, root: Path)
    requires MadeFor(base, previous, request, rendered, run) && Reversible(base, run.prepared, bundle, published)
    requires run.attempted && t.files == After(base, run)
    ensures Consistent(published) && Committed(published) && DistinctKeys(JournalOf(published).changes, JournalPath)
    ensures RollbackOf(published).targetSnapshotChecksum == request.targetSnapshotChecksum
    ensures UndoneBy(published, t.files) == base
    ensures CheckPasses(base, RebuiltCheck(RollbackOf(published), JournalOf(published))) <==>
              NoForkedFile(request.targetSnapshotChecksum.files)
    ensures CanUndo(t, published, root) <==> RootFree(t, root)
    ensures RollbackPossible(t, published, root) <==> RootFree(t, root) && NoForkedFile(request.targetSnapshotChecksum.files)
  {
    var changes, rollback, journal := run.prepared.changes, bundle.rollback.files, bundle.journal.changes;
    PublishedDocuments(base, run.prepared, bundle, published);
    PublishedConsistent(base, previous, request, rendered, run, bundle, published);
    CommittedDigests(base, changes, rollback, journal);
    UndoneIsBase(base, changes, rollback, journal);
    RebuiltCheckExactly(base, run.locked, request, rendered, run.prepared, rollback, journal);
    forall i, j | 0 <= i < j < |JournalOf(published).changes|
      ensures JournalOf(published).changes[i].path != JournalOf(published).changes[j].path
    {
      assert JournalPath(JournalOf(published).changes[i]) != JournalPath(JournalOf(published).changes[j]);
    }
  }

  ghost predicate RootFree(t: Tree, root: Path) {
    SafePath(root) && !Exists(t, root) && !Blocked(t, root)
  }

  /**
   Rolling back what was executed, on the target as it was left. Success leaves exactly the files there were before,
   under the request's own snapshot checksum; and with a free recovery directory and no failing operation, those files
   are back in any case, it succeeds if and only if the request's snapshot has no forked file, and otherwise the journal
   says that the rollback failed.
   */
  method RollbackExecuted(fs: Filesystem, store: Store, root: Path, ghost base: Files, ghost previous: seq<LockedFile>, ghost request: Request,
                          ghost rendered: seq<RenderedFile>, ghost run: Run, ghost bundle: Bundle)
    returns (r: Result<TargetSnapshot, Error>)
    requires Closed(fs.tree) && run.attempted && fs.tree.files == After(base, run)
    requires MadeFor(base, previous, request, rendered, run) && Reversible(base, run.prepared, bundle, store.published)
    modifies fs, store
    ensures fs.faults >= old(fs.faults) && store.faults >= old(store.faults)
    ensures r.Ok? ==> fs.tree.files == base && r.value.checksum == request.targetSnapshotChecksum
    ensures fs.faults + store.faults == old(fs.faults + store.faults) && RootFree(old(fs.tree), root) ==>
              fs.tree.files == base && (r.Ok? <==> NoForkedFile(request.targetSnapshotChecksum.files)) &&
              store.published.Some? && StateOf(store.published.value) == Some(if r.Ok? then StateRolledBack else StateRollbackFailed)
  {
    RollbackOfExecution(base, previous, request, rendered, run, bundle, store.published, fs.tree, root);
    r := Rollback(fs, store, root, false);
  }

  /** A generation whose rollback has failed cannot be rolled back again: the next call is an error and writes nothing. */
  method RollbackRefused(fs: Filesystem, store: Store, root: Path, cancelled: bool) returns (r: Result<TargetSnapshot, Error>)
    requires Closed(fs.tree) && store.published.Some? && StateOf(store.published.value) == Some(StateRollbackFailed)
    modifies fs, store
    ensures r.Err? && fs.tree == old(fs.tree) && store.stage == old(store.stage) && store.published == old(store.published)
  {
    r := Rollback(fs, store, root, cancelled);
  }

  /** The recovery directory of the rollback is free, and neither the outputs nor the staging directory come near it. */
  ghost predicate RootClear(t: Tree, request: Request, root: Path) {
    RootFree(t, root) && !Overlap(root, request.stagingPath) && forall o | o in request.desiredOutputs :: !Overlap(root, o.path)
  }

  lemma RootStaysFree(t0: Tree, t: Tree, locked: Owners, request: Request, rendered: seq<RenderedFile>, p: PreparedChangeSet, root: Path)
    requires IsPrepared(t0.files, locked, request, rendered, p) && NoneUnset(p.changes)
    requires t.files == Overlaid(t0.files, Effective(p.changes)) && RootClear(t0, request, root)
    requires OnlyNeededDirectories(request.stagingPath, Effective(p.changes), t0.dirs, t.dirs)
    ensures RootFree(t, root)
  {
    forall c | c in Effective(p.changes)
      ensures !Overlap(root, c.path)
    {
      var o := OutputOf(t0.files, locked, request, rendered, p, c);
    }
    assert !LeadsToChange(Effective(p.changes), root);
    forall a | Within(a, root)
      ensures a !in t.files
    {
      OverlaidElsewhere(t0.files, Effective(p.changes), a);
    }
  }

  /**
   A generation and its rollback, in one go. Success of both leaves exactly the files there were before, under the
   request's own snapshot checksum. If no operation fails and the generation has all it needs, both succeed if and only
   if the request's snapshot has no forked file.
   */
  method ExecuteThenRollback(fs: Filesystem, store: Store, contracts: Contracts, request: Request, plan: Option<Plan>, evidence: map<Path, Bytes>,
                             rendered: Result<seq<RenderedFile>, Error>, previous: seq<LockedFile>, previousPresent: bool, root: Path)
    returns (executed: bool, r: Result<TargetSnapshot, Error>)
    requires Closed(fs.tree) && store.published.None?
    modifies fs, store
    ensures r.Ok? ==> executed && fs.tree.files == old(fs.tree.files) && r.value.checksum == request.targetSnapshotChecksum
    ensures fs.faults + store.faults == old(fs.faults + store.faults) && old(store.stage).None? && RootClear(old(fs.tree), request, root) &&
            Runnable(old(fs.tree), contracts, request, plan, evidence, rendered, previous, previousPresent) ==>
              executed && fs.tree.files == old(fs.tree.files) && (r.Ok? <==> NoForkedFile(request.targetSnapshotChecksum.files)) &&
              store.published.Some? && StateOf(store.published.value) == Some(if r.Ok? then StateRolledBack else StateRollbackFailed)
  {
    ghost var t0, run := fs.tree, NoRun;
    var outcome, errors;
    outcome, errors, run := Execute(fs, store, contracts, request, plan, evidence, rendered, previous, previousPresent);
    executed := errors == {};
    r := Err(InvalidInput);
    if executed {
      if RootClear(t0, request, root) {
        RootStaysFree(t0, fs.tree, run.locked, request, rendered.value, run.prepared, root);
      }
      r := RollbackExecuted(fs, store, root, t0.files, previous, request, rendered.value, run, outcome.bundle.value);
    }
  }

  /** Rolling back what has been rolled back writes nothing, reports the same snapshot, and fails only if an operation does. */
  method RollbackAgain(fs: Filesystem, store: Store, root: Path) returns (r: Result<TargetSnapshot, Error>)
    requires Closed(fs.tree) && RolledBackSoundly(fs.tree.files, store.published)
    modifies fs, store
    ensures fs.tree == old(fs.tree) && store.stage == old(store.stage) && store.published == old(store.published)
    ensures fs.faults >= old(fs.faults) && store.faults >= old(store.faults)
    ensures r.Ok? ==> r.value.checksum == RollbackOf(store.published).targetSnapshotChecksum && r.value.files == r.value.checksum.files
    ensures r.Err? ==> fs.faults + store.faults > old(fs.faults + store.faults)
  {
    r := Rollback(fs, store, root, false);
  }

  /** After a successful rollback a second one leaves what the first one left, and reports the same snapshot again. */
  method RollbackTwice(fs: Filesystem, store: Store, root: Path)
    returns (first: Result<TargetSnapshot, Error>, second: Result<TargetSnapshot, Error>)
    requires Closed(fs.tree)
    modifies fs, store
    ensures first.Ok? ==> fs.tree.files == (if Committed(old(store.published)) then UndoneBy(old(store.published), old(fs.tree.files))
                                            else old(fs.tree.files))
    ensures first.Ok? ==> RollbackStep(old(store.published), store.published, true) && store.published.Some? &&
                          StateOf(store.published.value) == Some(StateRolledBack)
    ensures first.Ok? && second.Ok? ==> second == first
    ensures first.Ok? && second.Err? ==> fs.faults + store.faults > old(fs.faults + store.faults)
  {
    first := Rollback(fs, store, root, false);
    second := first;
    if first.Ok? {
      second := RollbackAgain(fs, store, root);
    }
  }
}
