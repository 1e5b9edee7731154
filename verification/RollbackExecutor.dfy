/**
 Rolling a published generation back on request: the journal says what was done, the rollback point what was
 there before, and the store still holds a backup of every replaced file.
 */
module RollbackExecutor {
  import opened Digests
  import opened Ordering
  import opened Paths
  import opened Model
  import opened Overlay
  import opened Disk
  import opened Undo
  import opened Inspect
  import opened Target
  import opened Commit
  import opened Artifacts
  import opened ArtifactStore
  import opened Recovery

  function JournalPath(c: JournalFile): string { c.path }

  function RollbackPath(f: RollbackFile): string { f.path }

  /** What the journal's contract demands of its changes. */
  predicate JournalWellFormed(j: Journal) {
    forall c | c in j.changes ::
      SafePath(c.path) && Managed(c.ownership) && c.action != Unset && c.after != NoDigest &&
      (c.action == Updated ==> c.before != NoDigest)
  }

  method ValidateJournal(changes: seq<JournalFile>) returns (ok: bool)
    ensures forall j: Journal :: j.changes == changes ==> (ok <==> JournalWellFormed(j))
  {
    for i := 0 to |changes|
      invariant forall c | c in changes[..i] ::
          SafePath(c.path) && (c.ownership == Generated || c.ownership == Integration) && c.action != Unset && c.after != NoDigest &&
          (c.action == Updated ==> c.before != NoDigest)
    {
      var c := changes[i];
      assert changes[..i + 1] == changes[..i] + [c] && c in changes;
      if !SafePath(c.path) || (c.ownership != Generated && c.ownership != Integration) || c.action == Unset || c.after == NoDigest ||
         (c.action == Updated && c.before == NoDigest) {
        return false;
      }
    }
    assert changes[..|changes|] == changes;
    return true;
  }

  /** The target holds what the generation left at every path it recorded. */
  predicate AfterDigestsHold(files: Files, changes: seq<JournalFile>) {
    forall c | c in changes :: c.path in files && Sha256(files[c.path]) == c.after
  }

  /** `files` with the recorded changes taken back, last first. */
  function Undone(files: Files, changes: seq<JournalFile>): Files
    decreases |changes|
  {
    if changes == [] then files else Undone(UndoneOne(files, changes[|changes| - 1]), changes[..|changes| - 1])
  }

  function UndoneOne(files: Files, c: JournalFile): Files {
    match c.action
    case Created => files - {c.path}
    case Updated => if c.before.Sha256? then files[c.path := c.before.content] else files
    case _ => files
  }

  function BeforeAt(files: Files, c: JournalFile): Option<Bytes> {
    match c.action
    case Created => None
    case Updated => if c.before.Sha256? then Some(c.before.content) else At(files, c.path)
    case _ => At(files, c.path)
  }

  lemma {:induction false} UndoneAt(files: Files, changes: seq<JournalFile>, c: JournalFile)
    requires DistinctKeys(changes, JournalPath) && c in changes
    ensures At(Undone(files, changes), c.path) == BeforeAt(files, c)
    decreases |changes|
  {
    var n := |changes| - 1;
    DistinctPrefix(changes, n, JournalPath);
    NotInPrefix(changes, n, JournalPath);
    if c == changes[n] {
      forall d | d in changes[..n]
        ensures d.path != c.path
      {
        assert JournalPath(d) != JournalPath(changes[n]);
      }
      UndoneElsewhere(UndoneOne(files, c), changes[..n], c.path);
    } else {
      var k :| 0 <= k < |changes| && changes[k] == c;
      assert changes[..n][k] == c;
      assert JournalPath(c) != JournalPath(changes[n]);
      UndoneAt(UndoneOne(files, changes[n]), changes[..n], c);
    }
  }

  lemma {:induction false} UndoneElsewhere(files: Files, changes: seq<JournalFile>, p: Path)
    requires forall c | c in changes :: c.path != p
    ensures At(Undone(files, changes), p) == At(files, p)
    decreases |changes|
  {
    if changes != [] {
      var n := |changes| - 1;
      assert changes[n] in changes && forall c | c in changes[..n] :: c in changes;
      UndoneElsewhere(UndoneOne(files, changes[n]), changes[..n], p);
    }
  }

  // ---------------------------------------------------------------- the changes to take back

  function RecordedChange(c: JournalFile, content: Bytes): FileChange {
    FileChange(c.path, c.ownership, c.action, content, c.after, NoDigest, c.before)
  }

  ghost predicate RecordedFrom(list: seq<FileChange>, changes: seq<JournalFile>, files: Files) {
    |list| == |changes| && forall i | 0 <= i < |changes| ::
      changes[i].path in files && list[i] == RecordedChange(changes[i], files[changes[i].path])
  }

  /** Every recorded path still holds what was written there; the content is kept for the undo. */
  method VerifyCommittedChanges(fs: Filesystem, changes: seq<JournalFile>) returns (r: Option<seq<FileChange>>)
    modifies fs`faults
    ensures fs.faults >= old(fs.faults)
    ensures r.Some? ==> AfterDigestsHold(fs.tree.files, changes) && RecordedFrom(r.value, changes, fs.tree.files)
    ensures r.None? && fs.faults == old(fs.faults) ==> !AfterDigestsHold(fs.tree.files, changes)
  {
    var list: seq<FileChange> := [];
    for i := 0 to |changes|
      invariant fs.faults >= old(fs.faults)
      invariant AfterDigestsHold(fs.tree.files, changes[..i]) && RecordedFrom(list, changes[..i], fs.tree.files)
    {
      assert changes[..i + 1] == changes[..i] + [changes[i]];
      var content := fs.ReadFile(changes[i].path);
      if content.Err? || Sha256(content.value) != changes[i].after {
        assert changes[i] in changes;
        return None;
      }
      list := list + [RecordedChange(changes[i], content.value)];
    }
    assert changes[..|changes|] == changes;
    return Some(list);
  }

  /** Taking back what the recovery is given undoes what the journal records, whatever its order. */
  lemma {:induction false} RecordedReverts(files: Files, changes: seq<JournalFile>, list: seq<FileChange>, seen: Files)
    requires RecordedFrom(list, changes, seen)
    requires forall c | c in changes :: c.action != Unset && (c.action == Updated ==> c.before.Sha256?)
    ensures Reverted(files, Effective(list)) == Undone(files, changes)
    decreases |changes|
  {
    if changes != [] {
      var n := |changes| - 1;
      assert changes[n] in changes && forall c | c in changes[..n] :: c in changes;
      RecordedPrefix(list, changes, seen, n);
      RevertedLast(files, list, changes[n], seen);
      RecordedReverts(UndoneOne(files, changes[n]), changes[..n], list[..n], seen);
    }
  }

  lemma RecordedPrefix(list: seq<FileChange>, changes: seq<JournalFile>, files: Files, n: nat)
    requires RecordedFrom(list, changes, files) && n < |changes|
    ensures RecordedFrom(list[..n], changes[..n], files)
    ensures changes[n].path in files && list[n] == RecordedChange(changes[n], files[changes[n].path])
  {
  }

  lemma RevertedLast(files: Files, list: seq<FileChange>, c: JournalFile, seen: Files)
    requires list != [] && c.path in seen && list[|list| - 1] == RecordedChange(c, seen[c.path])
    requires c.action != Unset && (c.action == Updated ==> c.before.Sha256?)
    ensures Reverted(files, Effective(list)) == Reverted(UndoneOne(files, c), Effective(list[..|list| - 1]))
  {
    var n := |list| - 1;
    EffectivePrefix(list, n);
    assert list[..n + 1] == list;
    var todo := Effective(list);
    if list[n].action != Unchanged {
      assert todo[..|todo| - 1] == Effective(list[..n]) && todo[|todo| - 1] == list[n];
    }
  }

  lemma RecordedStanding(changes: seq<JournalFile>, list: seq<FileChange>, files: Files)
    requires RecordedFrom(list, changes, files) && forall c | c in changes :: c.action != Unset
    ensures Standing(Effective(list), files)
  {
    forall c | c in Effective(list)
      ensures (c.action == Created || c.action == Updated) && c.path in files
    {
      var i :| 0 <= i < |list| && list[i] == c;
      assert changes[i] in changes;
    }
  }

  // ---------------------------------------------------------------- recognising the earlier snapshot

  function RebuiltLock(c: JournalFile): LockedFile {
    BareLock(c.path, c.ownership, if c.action == Unchanged && c.before == NoDigest then c.after else c.before)
  }

  /** The ownership lock as far as the journal knows it: the files that were there before. */
  function RebuiltLocks(changes: seq<JournalFile>): (r: seq<LockedFile>)
    ensures forall f :: f in r <==> exists c :: c in changes && c.action != Created && f == RebuiltLock(c)
  {
    if changes == [] then []
    else
      var n := |changes| - 1;
      var rest := RebuiltLocks(changes[..n]);
      assert changes == changes[..n] + [changes[n]];
      if changes[n].action == Created then rest else rest + [RebuiltLock(changes[n])]
  }

  lemma {:induction false} RebuiltDistinct(changes: seq<JournalFile>)
    requires DistinctKeys(changes, JournalPath)
    ensures DistinctKeys(RebuiltLocks(changes), LockedPath)
  {
    if changes != [] {
      var n := |changes| - 1;
      DistinctPrefix(changes, n, JournalPath);
      NotInPrefix(changes, n, JournalPath);
      RebuiltDistinct(changes[..n]);
      var rest := RebuiltLocks(changes[..n]);
      forall i | 0 <= i < |rest|
        ensures LockedPath(rest[i]) != JournalPath(changes[n])
      {
        assert rest[i] in rest;
        var c :| c in changes[..n] && c.action != Created && rest[i] == RebuiltLock(c);
        assert JournalPath(c) != JournalPath(changes[n]);
      }
    }
  }

  function RebuiltCheck(rollback: RollbackPoint, journal: Journal): Check {
    AsRebuilt(RebuiltLocks(journal.changes), rollback.targetSnapshotChecksum)
  }

  /** A lock that can be rebuilt has no file updated twice. */
  lemma {:induction false} RebuiltUpdatesOnce(changes: seq<JournalFile>)
    requires DistinctKeys(RebuiltLocks(changes), LockedPath)
    ensures UpdatesOnce(changes)
    decreases |changes|
  {
    if changes != [] {
      var n := |changes| - 1;
      var rest := RebuiltLocks(changes[..n]);
      if changes[n].action != Created {
        assert rest == RebuiltLocks(changes)[..|rest|];
        DistinctPrefix(RebuiltLocks(changes), |rest|, LockedPath);
      }
      RebuiltUpdatesOnce(changes[..n]);
      forall i, j | 0 <= i < j < |changes| && changes[i].action == changes[j].action == Updated
        ensures changes[i].path != changes[j].path
      {
        assert changes[..n][i] == changes[i];
        if j < n {
          assert changes[..n][j] == changes[j];
        } else {
          LocksApart(changes, changes[i]);
        }
      }
    }
  }

  lemma {:induction false} RecordedUpdatedOnce(changes: seq<JournalFile>, list: seq<FileChange>, seen: Files)
    requires RecordedFrom(list, changes, seen) && UpdatesOnce(changes)
    ensures UpdatedOnce(Effective(list))
    decreases |changes|
  {
    if changes != [] {
      var n := |changes| - 1;
      RecordedPrefix(list, changes, seen, n);
      EffectivePrefix(list, n);
      assert list[..n + 1] == list && UpdatesOnce(changes[..n]);
      RecordedUpdatedOnce(changes[..n], list[..n], seen);
      var before, todo := Effective(list[..n]), Effective(list);
      forall i, j | 0 <= i < j < |todo| && todo[i].action == todo[j].action == Updated
        ensures todo[i].path != todo[j].path
      {
        if j < |before| {
          assert before[i].path != before[j].path;
        } else {
          EarlierUpdate(changes, list, seen, n, before[i]);
        }
      }
    }
  }

  lemma EarlierUpdate(changes: seq<JournalFile>, list: seq<FileChange>, seen: Files, n: nat, c: FileChange)
    requires RecordedFrom(list, changes, seen) && UpdatesOnce(changes) && n < |changes| && changes[n].action == Updated
    requires c in Effective(list[..n]) && c.action == Updated
    ensures c.path != changes[n].path
  {
    var k :| 0 <= k < n && list[..n][k] == c;
    RecordedPrefix(list, changes, seen, k);
    assert changes[k].path != changes[n].path;
  }

  lemma {:induction false} LocksApart(changes: seq<JournalFile>, c: JournalFile)
    requires changes != [] && DistinctKeys(RebuiltLocks(changes), LockedPath)
    requires c in changes[..|changes| - 1] && c.action != Created && changes[|changes| - 1].action != Created
    ensures c.path != changes[|changes| - 1].path
  {
    var n := |changes| - 1;
    var rest := RebuiltLocks(changes[..n]);
    assert RebuiltLocks(changes) == rest + [RebuiltLock(changes[n])];
    assert RebuiltLock(c) in rest;
    NotInPrefix(RebuiltLocks(changes), |rest|, LockedPath);
    assert RebuiltLock(c) in RebuiltLocks(changes)[..|rest|];
  }

  method RebuildLocks(changes: seq<JournalFile>) returns (locks: seq<LockedFile>)
    ensures locks == RebuiltLocks(changes)
  {
    locks := [];
    for i := 0 to |changes|
      invariant locks == RebuiltLocks(changes[..i])
    {
      assert changes[..i + 1][..i] == changes[..i];
      if changes[i].action != Created {
        var before := if changes[i].action == Unchanged && changes[i].before == NoDigest then changes[i].after else changes[i].before;
        locks := locks + [BareLock(changes[i].path, changes[i].ownership, before)];
      }
    }
    assert changes[..|changes|] == changes;
  }

  /** The digest recorded for a path; where several are, the last one counts. */
  function LastRecord(files: seq<RollbackFile>, p: Path): Option<Digest> {
    if files == [] then None
    else if files[|files| - 1].path == p then Some(files[|files| - 1].sha)
    else LastRecord(files[..|files| - 1], p)
  }

  lemma {:induction false} LastRecordIs(files: seq<RollbackFile>, f: RollbackFile)
    requires DistinctKeys(files, RollbackPath) && f in files
    ensures LastRecord(files, f.path) == Some(f.sha)
  {
    var n := |files| - 1;
    if f != files[n] {
      var k :| 0 <= k < |files| && files[k] == f;
      assert RollbackPath(files[k]) != RollbackPath(files[n]) && files[..n][k] == f;
      DistinctPrefix(files, n, RollbackPath);
      LastRecordIs(files[..n], f);
    }
  }

  function RecordIn(recorded: map<Path, Digest>, p: Path): Option<Digest> {
    if p in recorded then Some(recorded[p]) else None
  }

  method RecordsByPath(files: seq<RollbackFile>) returns (recorded: map<Path, Digest>)
    ensures forall p :: RecordIn(recorded, p) == LastRecord(files, p)
  {
    recorded := map[];
    for i := 0 to |files|
      invariant forall p :: RecordIn(recorded, p) == LastRecord(files[..i], p)
    {
      assert files[..i + 1][..i] == files[..i];
      recorded := recorded[files[i].path := files[i].sha];
    }
    assert files[..|files|] == files;
  }

  // ---------------------------------------------------------------- the rollback

  predicate HasJournal(docs: Option<Directory>) {
    docs.Some? && JournalName in docs.value && docs.value[JournalName].JournalDocument?
  }

  function JournalOf(docs: Option<Directory>): Journal
    requires HasJournal(docs)
  {
    docs.value[JournalName].journal
  }

  predicate HasRollbackPoint(docs: Option<Directory>) {
    docs.Some? && RollbackName in docs.value && docs.value[RollbackName].RollbackDocument?
  }

  function RollbackOf(docs: Option<Directory>): RollbackPoint
    requires HasRollbackPoint(docs)
  {
    docs.value[RollbackName].rollback
  }

  /** The documents belong together. */
  predicate Consistent(docs: Option<Directory>) {
    HasJournal(docs) && HasRollbackPoint(docs) && JournalWellFormed(JournalOf(docs)) &&
    RollbackOf(docs).targetSnapshotChecksum == JournalOf(docs).targetSnapshotChecksum &&
    |RollbackOf(docs).files| == |JournalOf(docs).changes|
  }

  predicate Committed(docs: Option<Directory>) {
    HasJournal(docs) && JournalOf(docs).state == StateCommitted
  }

  /** For every replaced file the rollback point repeats the journal's digest, and its backup is there. */
  ghost predicate BackupsReady(docs: Option<Directory>)
    requires Consistent(docs)
  {
    forall c | c in JournalOf(docs).changes && c.action == Updated ::
      LastRecord(RollbackOf(docs).files, c.path) == Some(c.before) && HoldsBackup(docs, RecordedChange(c, ""))
  }

  /** The journal names no path twice, as none does that an execution publishes. */
  ghost predicate NamesPathsOnce(docs: Option<Directory>) {
    Committed(docs) ==> DistinctKeys(JournalOf(docs).changes, JournalPath)
  }

  /** No path is touched but those the journal names, and nothing at all without a committed journal. */
  ghost predicate OnlyJournalled(root: Path, docs: Option<Directory>, before: Files, now: Files) {
    if Committed(docs) then forall p | !Within(root, p) && !Journalled(JournalOf(docs).changes, p) :: At(now, p) == At(before, p)
    else now == before
  }

  predicate Journalled(changes: seq<JournalFile>, p: Path) {
    exists c | c in changes :: c.path == p
  }

  /** Everything a rollback needs besides working operations. */
  ghost predicate RollbackPossible(t: Tree, docs: Option<Directory>, root: Path) {
    TargetUndoable(t, docs, root) && JournalNext !in docs.value
  }

  /** The target shows what the journal records, the backups are at hand, the way is free, and the result will be recognised. */
  ghost predicate TargetUndoable(t: Tree, docs: Option<Directory>, root: Path) {
    Consistent(docs) && Committed(docs) && BackupsReady(docs) &&
    AfterDigestsHold(t.files, JournalOf(docs).changes) && SafePath(root) && !Exists(t, root) && !Blocked(t, root) &&
    CheckPasses(Undone(t.files, JournalOf(docs).changes), RebuiltCheck(RollbackOf(docs), JournalOf(docs)))
  }

  /** An already rolled back generation whose target still shows the earlier snapshot. */
  ghost predicate RolledBackSoundly(files: Files, docs: Option<Directory>) {
    Consistent(docs) && JournalOf(docs).state == StateRolledBack && CheckPasses(files, RebuiltCheck(RollbackOf(docs), JournalOf(docs)))
  }

  /** A rollback leaves every published document alone, except that the journal's state may move on. */
  predicate RollbackStep(before: Option<Directory>, after: Option<Directory>, ok: bool) {
    if Committed(before) then
      after == before ||
      (after.Some? && ((JournalRewritten(before.value, after.value, ok, StateRolledBack, true, true)) ||
                       (!ok && exists marked | marked in {true, false} ::
                          JournalRewritten(before.value, after.value, marked, StateRollbackFailed, true, false))))
    else
      after == before
  }

  /** Something has changed outside the recovery directory. */
  ghost predicate ChangedOutside(root: Path, before: Files, now: Files) {
    exists p :: !Within(root, p) && At(now, p) != At(before, p)
  }

  /** The journal was committed and says that a rollback has failed, unless a left-over temporary file kept it from being rewritten. */
  predicate FailureMarked(before: Option<Directory>, after: Option<Directory>) {
    Committed(before) &&
    (JournalNext !in before.value ==>
       HasJournal(after) && JournalOf(after) == InState(JournalOf(before), StateRollbackFailed, true, false))
  }

  /** A rollback gets as far as its recovery directory. */
  ghost predicate Enterable(t: Tree, docs: Option<Directory>, root: Path) {
    Consistent(docs) && Committed(docs) && AfterDigestsHold(t.files, JournalOf(docs).changes) &&
    SafePath(root) && !Exists(t, root) && !Blocked(t, root)
  }

  /** From there on nothing but failing operations keeps it from undoing every change, whatever the final check says. */
  ghost predicate CanUndo(t: Tree, docs: Option<Directory>, root: Path) {
    Enterable(t, docs, root) && BackupsReady(docs) && UpdatesOnce(JournalOf(docs).changes)
  }

  /** No file is recorded as updated twice. */
  predicate UpdatesOnce(changes: seq<JournalFile>) {
    forall i, j | 0 <= i < j < |changes| && changes[i].action == changes[j].action == Updated :: changes[i].path != changes[j].path
  }

  ghost function UndoneBy(docs: Option<Directory>, files: Files): Files {
    if HasJournal(docs) then Undone(files, JournalOf(docs).changes) else files
  }

  /**
   Takes a published generation back; `root` is the recovery directory derived from the rollback's identifier.
   - Only a committed journal leads to any write; a repeated rollback just checks.
   - No other path than the journalled ones is touched, outside the recovery directory.
   - Success after a committed journal means the recorded changes are undone, last first, and the snapshot is the one the
     rollback point names; on every other exit each path holds its old content or what undoing a change of its own leaves.
   - It succeeds only with all it needs, and with that it fails only if an operation does.
   */
  method Rollback(fs: Filesystem, store: Store, root: Path, cancelled: bool) returns (r: Result<TargetSnapshot, Error>)
    requires Closed(fs.tree)
    modifies fs, store
    ensures Closed(fs.tree) && fs.faults >= old(fs.faults) && store.faults >= old(store.faults) && store.stage == old(store.stage)
    ensures old(fs.seen) <= fs.seen
    ensures RollbackStep(old(store.published), store.published, r.Ok?)
    ensures !Committed(old(store.published)) ==> fs.tree == old(fs.tree)
    ensures OnlyJournalled(root, old(store.published), old(fs.tree.files), fs.tree.files)
    ensures r.Ok? ==> Consistent(old(store.published)) &&
                      var checksum := RollbackOf(old(store.published)).targetSnapshotChecksum;
                      r.value == TargetSnapshot(checksum.files, checksum) && StateOf(store.published.value) == Some(StateRolledBack)
    ensures RollbackExact(root, old(store.published), old(fs.tree.files), fs.tree.files, r.Ok?)
    ensures InsideKept(root, old(fs.tree.files), fs.tree.files)
    ensures r.Ok? && Committed(old(store.published)) ==> RollbackPossible(old(fs.tree), old(store.published), root)
    ensures r.Err? && store.faults == old(store.faults) && ChangedOutside(root, old(fs.tree.files), fs.tree.files) ==>
              FailureMarked(old(store.published), store.published)
    ensures r.Err? && !cancelled && fs.faults == old(fs.faults) && store.faults == old(store.faults) &&
            Enterable(old(fs.tree), old(store.published), root) ==>
              FailureMarked(old(store.published), store.published)
    ensures !cancelled && fs.faults == old(fs.faults) && store.faults == old(store.faults) && CanUndo(old(fs.tree), old(store.published), root) ==>
              fs.tree.files == UndoneBy(old(store.published), old(fs.tree.files))
    ensures r.Err? && !cancelled && fs.faults == old(fs.faults) && store.faults == old(store.faults) ==>
              !RollbackPossible(old(fs.tree), old(store.published), root)
    ensures r.Err? && fs.faults == old(fs.faults) && store.faults == old(store.faults) ==>
              !RolledBackSoundly(old(fs.tree.files), old(store.published))
  {
    var rollback := store.ReadPublished(RollbackName);
    if rollback.None? || !rollback.value.RollbackDocument? {
      return Err(ArtifactStoreFailed);
    }
    var journal := store.ReadPublished(JournalName);
    if journal.None? || !journal.value.JournalDocument? {
      return Err(ArtifactStoreFailed);
    }
    var wellFormed := ValidateJournal(journal.value.journal.changes);
    if !wellFormed {
      return Err(ArtifactStoreFailed);
    }
    var point, log := rollback.value.rollback, journal.value.journal;
    if point.targetSnapshotChecksum != log.targetSnapshotChecksum || |point.files| != |log.changes| {
      return Err(ArtifactConflict);
    }
    if log.state == StateRolledBack {
      r := VerifyRollbackSnapshot(fs, point, log);
      return;
    }
    if log.state != StateCommitted {
      return Err(ArtifactConflict);
    }
    if cancelled {
      return Err(Cancelled);
    }
    var recorded := VerifyCommittedChanges(fs, log.changes);
    if recorded.None? {
      return Err(TargetChanged);
    }
    r := RollbackCommitted(fs, store, root, point, log, recorded.value);
  }

  /** Each path holds what it held, or what undoing one of its recorded changes leaves. */
  ghost predicate EachOldOrUndone(root: Path, docs: Option<Directory>, before: Files, now: Files) {
    if Committed(docs) then
      forall p | !Within(root, p) :: At(now, p) == At(before, p) ||
                                     exists c :: c in JournalOf(docs).changes && c.path == p && At(now, p) == BeforeAt(before, c)
    else now == before
  }

  /** Where no path is named twice, that makes a mixture of the old and the undone files. */
  lemma UndoneMixture(root: Path, docs: Option<Directory>, before: Files, now: Files)
    requires EachOldOrUndone(root, docs, before, now) && NamesPathsOnce(docs)
    ensures MixedOutside(root, UndoneBy(docs, before), before, now)
  {
    forall p
      ensures At(Project(now, {root}), p) == At(Project(UndoneBy(docs, before), {root}), p) ||
              At(Project(now, {root}), p) == At(Project(before, {root}), p)
    {
      HiddenByStage(root, p);
      if Committed(docs) && !Within(root, p) && At(now, p) != At(before, p) {
        var c :| c in JournalOf(docs).changes && c.path == p && At(now, p) == BeforeAt(before, c);
        UndoneAt(before, JournalOf(docs).changes, c);
      }
    }
  }

  /** Success is exactly the undone target, checked; on every exit each path holds its old content or an undone one. */
  ghost predicate RollbackExact(root: Path, docs: Option<Directory>, before: Files, now: Files, ok: bool) {
    EachOldOrUndone(root, docs, before, now) &&
    (ok ==> Consistent(docs) && CheckPasses(now, RebuiltCheck(RollbackOf(docs), JournalOf(docs)))) &&
    (ok && Committed(docs) ==> now == UndoneBy(docs, before))
  }

  method VerifyRollbackSnapshot(fs: Filesystem, point: RollbackPoint, log: Journal) returns (r: Result<TargetSnapshot, Error>)
    modifies fs`faults, fs`seen
    ensures fs.faults >= old(fs.faults) && old(fs.seen) <= fs.seen
    ensures r.Ok? ==> CheckPasses(fs.tree.files, RebuiltCheck(point, log)) &&
                      r.value == TargetSnapshot(point.targetSnapshotChecksum.files, point.targetSnapshotChecksum)
    ensures r.Err? && fs.faults == old(fs.faults) ==> !CheckPasses(fs.tree.files, RebuiltCheck(point, log))
  {
    var locks := RebuildLocks(log.changes);
    var snapshot := RunCheck(fs, AsRebuilt(locks, point.targetSnapshotChecksum));
    return if snapshot.Some? then Ok(snapshot.value) else Err(RollbackFailed);
  }

  /** The rollback of a committed, undisturbed generation. */
  method RollbackCommitted(fs: Filesystem, store: Store, root: Path, point: RollbackPoint, log: Journal, list: seq<FileChange>)
    returns (r: Result<TargetSnapshot, Error>)
    requires Closed(fs.tree) && Consistent(store.published) && Committed(store.published)
    requires point == RollbackOf(store.published) && log == JournalOf(store.published)
    requires AfterDigestsHold(fs.tree.files, log.changes) && RecordedFrom(list, log.changes, fs.tree.files)
    modifies fs, store
    ensures Closed(fs.tree) && fs.faults >= old(fs.faults) && store.faults >= old(store.faults) && store.stage == old(store.stage)
    ensures old(fs.seen) <= fs.seen
    ensures RollbackStep(old(store.published), store.published, r.Ok?)
    ensures OnlyJournalled(root, old(store.published), old(fs.tree.files), fs.tree.files)
    ensures r.Ok? ==> r.value == TargetSnapshot(point.targetSnapshotChecksum.files, point.targetSnapshotChecksum) &&
                      StateOf(store.published.value) == Some(StateRolledBack)
    ensures RollbackExact(root, old(store.published), old(fs.tree.files), fs.tree.files, r.Ok?)
    ensures InsideKept(root, old(fs.tree.files), fs.tree.files)
    ensures r.Ok? ==> RollbackPossible(old(fs.tree), old(store.published), root)
    ensures r.Err? && store.faults == old(store.faults) && ChangedOutside(root, old(fs.tree.files), fs.tree.files) ==>
              FailureMarked(old(store.published), store.published)
    ensures r.Err? && fs.faults == old(fs.faults) && store.faults == old(store.faults) && SafePath(root) && !Exists(old(fs.tree), root) &&
            !Blocked(old(fs.tree), root) ==>
              FailureMarked(old(store.published), store.published)
    ensures fs.faults == old(fs.faults) && store.faults == old(store.faults) && CanUndo(old(fs.tree), old(store.published), root) ==>
              fs.tree.files == UndoneBy(old(store.published), old(fs.tree.files))
    ensures r.Err? && fs.faults == old(fs.faults) && store.faults == old(store.faults) ==>
              !RollbackPossible(old(fs.tree), old(store.published), root)
  {
    var entered, restored := RestoreRecorded(fs, store, root, point, log, list);
    if !entered {
      return Err(RollbackFailed);
    }
    if restored.None? {
      var _ := MarkJournal(store, false);
      return Err(RollbackFailed);
    }
    var marked := MarkJournal(store, true);
    r := if marked then Ok(restored.value) else Err(ArtifactStoreFailed);
  }

  /** Undoes the recorded changes through a new recovery directory; `entered` tells whether there was one. */
  method RestoreRecorded(fs: Filesystem, store: Store, root: Path, point: RollbackPoint, log: Journal, list: seq<FileChange>)
    returns (entered: bool, restored: Option<TargetSnapshot>)
    requires Closed(fs.tree) && Consistent(store.published) && Committed(store.published)
    requires point == RollbackOf(store.published) && log == JournalOf(store.published)
    requires AfterDigestsHold(fs.tree.files, log.changes) && RecordedFrom(list, log.changes, fs.tree.files)
    modifies fs, store`faults
    ensures Closed(fs.tree) && fs.faults >= old(fs.faults) && store.faults >= old(store.faults) && old(fs.seen) <= fs.seen
    ensures !entered ==> restored.None? && fs.tree.files == old(fs.tree.files)
    ensures !entered && fs.faults == old(fs.faults) ==> !SafePath(root) || Exists(old(fs.tree), root) || Blocked(old(fs.tree), root)
    ensures OnlyJournalled(root, store.published, old(fs.tree.files), fs.tree.files)
    ensures restored.Some? ==> restored.value == TargetSnapshot(point.targetSnapshotChecksum.files, point.targetSnapshotChecksum)
    ensures RollbackExact(root, store.published, old(fs.tree.files), fs.tree.files, restored.Some?)
    ensures InsideKept(root, old(fs.tree.files), fs.tree.files)
    ensures restored.Some? ==> TargetUndoable(old(fs.tree), store.published, root)
    ensures fs.faults == old(fs.faults) && store.faults == old(store.faults) && CanUndo(old(fs.tree), store.published, root) ==>
              fs.tree.files == UndoneBy(store.published, old(fs.tree.files))
    ensures restored.None? && fs.faults == old(fs.faults) && store.faults == old(store.faults) ==>
              !TargetUndoable(old(fs.tree), store.published, root)
  {
    ghost var t0, docs := fs.tree, store.published;
    NothingRolledBack(root, docs, t0.files);
    entered := OpenRecovery(fs, root);
    restored := None;
    if entered {
      restored := RestoreEntered(fs, store, root, point, log, list, t0);
    }
  }

  lemma NothingRolledBack(root: Path, docs: Option<Directory>, files: Files)
    ensures RollbackExact(root, docs, files, files, false) && OnlyJournalled(root, docs, files, files)
  {
  }

  method RestoreEntered(fs: Filesystem, store: Store, root: Path, point: RollbackPoint, log: Journal, list: seq<FileChange>, ghost t0: Tree)
    returns (restored: Option<TargetSnapshot>)
    requires Closed(fs.tree) && Closed(t0) && root in fs.tree.dirs && fs.tree.files == t0.files && NothingInside(root, t0.files)
    requires fs.tree.dirs == t0.dirs + Ancestors(root) + {root} && forall d | d in t0.dirs :: !Within(root, d)
    requires Consistent(store.published) && Committed(store.published)
    requires point == RollbackOf(store.published) && log == JournalOf(store.published)
    requires RecordedFrom(list, log.changes, t0.files) && AfterDigestsHold(t0.files, log.changes)
    requires SafePath(root) && !Exists(t0, root) && !Blocked(t0, root)
    modifies fs, store`faults
    ensures Closed(fs.tree) && fs.faults >= old(fs.faults) && store.faults >= old(store.faults) && old(fs.seen) <= fs.seen
    ensures OnlyJournalled(root, store.published, t0.files, fs.tree.files)
    ensures restored.Some? ==> restored.value == TargetSnapshot(point.targetSnapshotChecksum.files, point.targetSnapshotChecksum)
    ensures RollbackExact(root, store.published, t0.files, fs.tree.files, restored.Some?)
    ensures restored.Some? ==> TargetUndoable(t0, store.published, root)
    ensures fs.faults == old(fs.faults) && store.faults == old(store.faults) && CanUndo(t0, store.published, root) ==>
              fs.tree.files == UndoneBy(store.published, t0.files)
    ensures restored.None? && fs.faults == old(fs.faults) && store.faults == old(store.faults) ==>
              !TargetUndoable(t0, store.published, root)
  {
    var recorded := RecordsByPath(point.files);
    var locks := RebuildLocks(log.changes);
    UndoableExactly(t0, store.published, root, list, recorded);
    restored := UndoFromRecovery(fs, store, Final, root, Effective(list), recorded, AsRebuilt(locks, point.targetSnapshotChecksum), t0);
    RestoreConcluded(root, store.published, list, t0.files, fs.tree.files, restored.Some?);
  }

  /** What the recovery is given, what it would make of the target, and when that is possible. */
  lemma UndoableExactly(t: Tree, docs: Option<Directory>, root: Path, list: seq<FileChange>, recorded: map<Path, Digest>)
    requires Consistent(docs) && Committed(docs) && RecordedFrom(list, JournalOf(docs).changes, t.files)
    requires AfterDigestsHold(t.files, JournalOf(docs).changes) && SafePath(root) && !Exists(t, root) && !Blocked(t, root)
    requires forall p :: RecordIn(recorded, p) == LastRecord(RollbackOf(docs).files, p)
    ensures Standing(Effective(list), t.files) && Reverted(t.files, Effective(list)) == UndoneBy(docs, t.files)
    ensures CheckPasses(UndoneBy(docs, t.files), RebuiltCheck(RollbackOf(docs), JournalOf(docs))) ==> UpdatedOnce(Effective(list))
    ensures CanUndo(t, docs, root) ==> Provided(docs, recorded, Effective(list)) && UpdatedOnce(Effective(list))
    ensures TargetUndoable(t, docs, root) <==>
              Provided(docs, recorded, Effective(list)) &&
              CheckPasses(UndoneBy(docs, t.files), RebuiltCheck(RollbackOf(docs), JournalOf(docs)))
  {
    var changes := JournalOf(docs).changes;
    BackupsSuffice(docs, list, t.files, recorded);
    RecordedStanding(changes, list, t.files);
    RecordedReverts(t.files, changes, list, t.files);
    if ValidLockFiles(RebuiltLocks(changes)) {
      RebuiltUpdatesOnce(changes);
    }
    if UpdatesOnce(changes) {
      RecordedUpdatedOnce(changes, list, t.files);
    }
  }

  /** What the recovery guarantees, said of the published documents. */
  lemma RestoreConcluded(root: Path, docs: Option<Directory>, list: seq<FileChange>, before: Files, now: Files, ok: bool)
    requires Consistent(docs) && Committed(docs) && RecordedFrom(list, JournalOf(docs).changes, before)
    requires OnlyThesePaths(root, Effective(list), before, now) && EachOldOrReverted(root, Effective(list), before, now)
    requires ok ==> now == UndoneBy(docs, before) && CheckPasses(now, RebuiltCheck(RollbackOf(docs), JournalOf(docs)))
    ensures OnlyJournalled(root, docs, before, now)
    ensures RollbackExact(root, docs, before, now, ok)
  {
    TheirsJournalled(root, list, JournalOf(docs).changes, before, now);
    forall p | !Within(root, p) && At(now, p) != At(before, p)
      ensures exists c :: c in JournalOf(docs).changes && c.path == p && At(now, p) == BeforeAt(before, c)
    {
      assert OldOrReverted(Effective(list), p, At(before, p), At(now, p));
      RevertedRecorded(docs, list, before, p, At(now, p));
    }
  }

  lemma RevertedRecorded(docs: Option<Directory>, list: seq<FileChange>, before: Files, p: Path, left: Option<Bytes>)
    requires Consistent(docs) && RecordedFrom(list, JournalOf(docs).changes, before)
    requires exists c :: c in Effective(list) && c.path == p && left == RevertedTo(c)
    ensures exists c :: c in JournalOf(docs).changes && c.path == p && left == BeforeAt(before, c)
  {
    var c :| c in Effective(list) && c.path == p && left == RevertedTo(c);
    var i :| 0 <= i < |list| && list[i] == c;
    assert JournalOf(docs).changes[i] in JournalOf(docs).changes;
  }

  lemma TheirsJournalled(root: Path, list: seq<FileChange>, changes: seq<JournalFile>, before: Files, now: Files)
    requires RecordedFrom(list, changes, before) && OnlyThesePaths(root, Effective(list), before, now)
    ensures forall p | !Within(root, p) && !Journalled(changes, p) :: At(now, p) == At(before, p)
  {
    forall c | c in Effective(list)
      ensures Journalled(changes, c.path)
    {
      var i :| 0 <= i < |list| && list[i] == c;
      assert changes[i] in changes;
    }
  }

  method MarkJournal(store: Store, completed: bool) returns (ok: bool)
    requires Committed(store.published)
    modifies store
    ensures store.faults >= old(store.faults) && store.stage == old(store.stage) && store.published.Some?
    ensures ok ==> JournalNext !in old(store.published).value
    ensures JournalRewritten(old(store.published).value, store.published.value, ok,
                             if completed then StateRolledBack else StateRollbackFailed, true, completed)
    ensures ok ==> StateOf(store.published.value) == Some(if completed then StateRolledBack else StateRollbackFailed)
    ensures !ok && store.faults == old(store.faults) ==> JournalNext in old(store.published).value
  {
    assert store.Docs(Final) == store.published && store.Docs(Staging) == store.stage;
    ok := store.ReplaceJournalState(Final, if completed then StateRolledBack else StateRollbackFailed, true, completed);
    assert store.Docs(Final) == store.published && store.Docs(Staging) == store.stage;
  }

  lemma BackupsSuffice(docs: Option<Directory>, list: seq<FileChange>, files: Files, recorded: map<Path, Digest>)
    requires Consistent(docs) && RecordedFrom(list, JournalOf(docs).changes, files)
    requires forall p :: RecordIn(recorded, p) == LastRecord(RollbackOf(docs).files, p)
    ensures BackupsReady(docs) <==> Provided(docs, recorded, Effective(list))
  {
    if Provided(docs, recorded, Effective(list)) {
      forall c | c in JournalOf(docs).changes && c.action == Updated
        ensures LastRecord(RollbackOf(docs).files, c.path) == Some(c.before) && HoldsBackup(docs, RecordedChange(c, ""))
      {
        var i :| 0 <= i < |list| && JournalOf(docs).changes[i] == c;
        assert list[i] in Effective(list) && RecordIn(recorded, c.path) == Some(c.before);
      }
    }
    if BackupsReady(docs) {
      forall c | c in Effective(list) && c.action == Updated
        ensures HoldsBackup(docs, c) && c.path in recorded && recorded[c.path] == c.previousSha
      {
        var i :| 0 <= i < |list| && list[i] == c;
        assert JournalOf(docs).changes[i] in JournalOf(docs).changes;
      }
    }
  }
}
