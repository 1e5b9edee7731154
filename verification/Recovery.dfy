/**
 Bringing a committed target back: the backups are copied into a recovery directory inside the target, the
 committed changes are undone from there, and the result must be the earlier snapshot again.
 */
module Recovery {
  import opened Digests
  import opened Ordering
  import opened Paths
  import opened Model
  import opened Overlay
  import opened Disk
  import opened Copies
  import opened Undo
  import opened Inspect
  import opened Commit
  import opened Artifacts
  import opened ArtifactStore

  function RecoveryFor(root: Path, c: FileChange): AppliedChange {
    AppliedChange(c, if c.action == Updated then Some(CopyPath(root, c.path)) else None)
  }

  function AllRecovery(root: Path, changes: seq<FileChange>): seq<AppliedChange> {
    seq(|changes|, i requires 0 <= i < |changes| => RecoveryFor(root, changes[i]))
  }

  /** The changes `todo` lead from `base` to `files`, and can be told apart from the recovery directory. */
  ghost predicate Recoverable(todo: seq<FileChange>, base: Files, files: Files) {
    DistinctKeys(todo, ChangePath) && files == Overlaid(base, todo) &&
    forall c | c in todo :: (c.action == Created && c.path !in base) ||
                            (c.action == Updated && c.path in base && c.previousSha == Sha256(base[c.path]))
  }

  /** The recorded changes are of files that stand in the target. */
  ghost predicate Standing(todo: seq<FileChange>, files: Files) {
    forall c | c in todo :: (c.action == Created || c.action == Updated) && c.path in files
  }

  /** No file is recorded as updated twice. */
  predicate UpdatedOnce(todo: seq<FileChange>) {
    forall i, j | 0 <= i < j < |todo| && todo[i].action == todo[j].action == Updated :: todo[i].path != todo[j].path
  }

  function UpdatedPaths(todo: seq<FileChange>): set<Path> {
    set c | c in todo && c.action == Updated :: c.path
  }

  lemma UpdatedPathsStand(todo: seq<FileChange>, n: nat, files: Files)
    requires n <= |todo| && Standing(todo, files)
    ensures UpdatedPaths(todo[..n]) <= files.Keys
  {
    assert forall c | c in todo[..n] :: c in todo;
  }

  /** A path that can be recovered next is neither taken nor blocked. */
  lemma RecoveryFree(t0: Tree, t: Tree, root: Path, done: set<Path>, p: Path)
    requires Closed(t0) && Closed(t) && root in t.dirs && CopyShape(t, root, done)
    requires forall q | q in done :: q in t0.files
    requires p in t0.files && p !in done
    ensures !Exists(t, CopyPath(root, p)) && !Blocked(t, CopyPath(root, p))
  {
    assert Ancestors(root) <= t.dirs && Ancestors(p) <= t0.dirs;
    forall a | Within(a, root)
      ensures a !in t.files
    {
      assert a == root || a in Ancestors(root);
    }
    forall q | q in done
      ensures !Ancestor(p, q) && !Ancestor(q, p)
    {
      assert Ancestors(q) <= t0.dirs;
    }
    CopyFree(t, root, done, p);
  }

  /** The recovery directory holds the file's recorded content. */
  ghost predicate IsCopied(files: Files, root: Path, c: FileChange) {
    CopyPath(root, c.path) in files && Sha256(files[CopyPath(root, c.path)]) == c.previousSha
  }

  /** The recorded content of the first `n` changes has been copied, each to a place of its own. */
  ghost predicate Copied(files: Files, root: Path, todo: seq<FileChange>, n: nat)
    requires n <= |todo|
  {
    UpdatedOnce(todo[..n]) && forall i | 0 <= i < n && todo[i].action == Updated :: IsCopied(files, root, todo[i])
  }

  /** The recovery directory holds the copies the first `n` changes need, and nothing else. */
  ghost predicate StagedUpTo(t: Tree, root: Path, todo: seq<FileChange>, n: nat)
    requires n <= |todo|
  {
    Copied(t.files, root, todo, n) && CopyShape(t, root, UpdatedPaths(todo[..n]))
  }

  lemma NoneStaged(t: Tree, root: Path, todo: seq<FileChange>)
    requires CopyShape(t, root, {})
    ensures StagedUpTo(t, root, todo, 0)
  {
    assert UpdatedPaths(todo[..0]) == {};
  }

  lemma CopiedStep(t: Tree, t': Tree, root: Path, todo: seq<FileChange>, n: nat)
    requires n < |todo| && Copied(t.files, root, todo, n) && Grown(t, t', root)
    requires todo[n].action == Updated ==> CopyPath(root, todo[n].path) !in t.files && IsCopied(t'.files, root, todo[n])
    ensures Copied(t'.files, root, todo, n + 1)
  {
    forall i | 0 <= i < n && todo[i].action == Updated
      ensures IsCopied(t'.files, root, todo[i])
    {
      assert IsCopied(t.files, root, todo[i]);
    }
    forall i, j | 0 <= i < j < n + 1 && todo[i].action == todo[j].action == Updated
      ensures todo[i].path != todo[j].path
    {
      assert IsCopied(t.files, root, todo[i]);
      assert todo[..n][i] == todo[i];
      if j < n {
        assert todo[..n][j] == todo[j];
      }
    }
  }

  /** Copies the backup of one replaced file into the recovery directory. */
  method StageBackup(fs: Filesystem, store: Store, place: Place, root: Path, c: FileChange, ghost t0: Tree, ghost done: set<Path>)
    returns (ok: bool)
    requires Closed(fs.tree) && root in fs.tree.dirs && c.action == Updated && CopyShape(fs.tree, root, done)
    requires Closed(t0) && Grown(t0, fs.tree, root) && done <= t0.files.Keys && c.path in t0.files
    modifies fs`tree, fs`faults, store`faults
    ensures Closed(fs.tree) && fs.faults >= old(fs.faults) && store.faults >= old(store.faults)
    ensures Grown(old(fs.tree), fs.tree, root)
    ensures store.Docs(place) == old(store.Docs(place))
    ensures ok ==> CopyShape(fs.tree, root, done + {c.path}) && CopyPath(root, c.path) !in old(fs.tree.files) && IsCopied(fs.tree.files, root, c) &&
                   HoldsBackup(store.Docs(place), c)
    ensures !ok && fs.faults == old(fs.faults) && store.faults == old(store.faults) ==> !HoldsBackup(store.Docs(place), c) || c.path in done
  {
    var path := CopyPath(root, c.path);
    JoinWithin(root, c.path);
    var readable := fs.TouchMode(c.path);  // the file's mode, if it can be read
    var backup := store.ReadBackup(place, c.path);
    if backup.None? || Sha256(backup.value) != c.previousSha {
      return false;
    }
    ghost var before := fs.tree;
    if c.path !in done {
      RecoveryFree(t0, before, root, done, c.path);
    }
    ok := WriteNewFile(fs, path, backup.value);
    NewFileGrown(before, fs.tree, root, path);
    if ok {
      CopyShapeStep(before, fs.tree, root, done, c.path);
    }
  }

  /** The backup of an updated file is there and has the digest recorded before the update. */
  predicate HoldsBackup(docs: Option<Directory>, c: FileChange) {
    docs.Some? && BackupName(c.path) in docs.value && docs.value[BackupName(c.path)].Blob? &&
    Sha256(docs.value[BackupName(c.path)].bytes) == c.previousSha
  }

  predicate AllBackupsHeld(docs: Option<Directory>, todo: seq<FileChange>) {
    forall c | c in todo && c.action == Updated :: HoldsBackup(docs, c)
  }

  /** What an undo needs of the journal is a digest per updated file that agrees with the rollback point's. */
  predicate RecordsAgree(recorded: map<Path, Digest>, todo: seq<FileChange>) {
    forall c | c in todo && c.action == Updated :: c.path in recorded && recorded[c.path] == c.previousSha
  }

  /** For every updated file the backup is there, and the rollback point and the journal agree on its digest. */
  predicate Provided(docs: Option<Directory>, recorded: map<Path, Digest>, todo: seq<FileChange>) {
    AllBackupsHeld(docs, todo) && RecordsAgree(recorded, todo)
  }

  lemma ProvidedStep(docs: Option<Directory>, recorded: map<Path, Digest>, todo: seq<FileChange>, n: nat)
    requires n < |todo| && Provided(docs, recorded, todo[..n])
    requires todo[n].action == Updated ==> HoldsBackup(docs, todo[n]) && todo[n].path in recorded && recorded[todo[n].path] == todo[n].previousSha
    ensures Provided(docs, recorded, todo[..n + 1])
  {
    assert todo[..n + 1] == todo[..n] + [todo[n]];
  }

  lemma AllRecoveryStep(root: Path, todo: seq<FileChange>, n: nat)
    requires n < |todo|
    ensures AllRecovery(root, todo[..n + 1]) == AllRecovery(root, todo[..n]) + [RecoveryFor(root, todo[n])]
  {
  }

  /** Copies every backup an undo of `todo` needs. */
  method StageRecovery(fs: Filesystem, store: Store, place: Place, root: Path, todo: seq<FileChange>, recorded: map<Path, Digest>, ghost t0: Tree)
    returns (applied: seq<AppliedChange>, ok: bool)
    requires Closed(fs.tree) && root in fs.tree.dirs && Closed(t0) && Grown(t0, fs.tree, root) && CopyShape(fs.tree, root, {})
    requires Standing(todo, t0.files)
    modifies fs`tree, fs`faults, store`faults
    ensures Closed(fs.tree) && fs.faults >= old(fs.faults) && store.faults >= old(store.faults)
    ensures Grown(t0, fs.tree, root)
    ensures store.Docs(place) == old(store.Docs(place))
    ensures ok ==> applied == AllRecovery(root, todo) && StagedUpTo(fs.tree, root, todo, |todo|) && Provided(store.Docs(place), recorded, todo)
    ensures !ok && fs.faults == old(fs.faults) && store.faults == old(store.faults) ==>
              !Provided(store.Docs(place), recorded, todo) || !UpdatedOnce(todo)
  {
    applied := [];
    NoneStaged(fs.tree, root, todo);
    for n := 0 to |todo|
      invariant Closed(fs.tree) && root in fs.tree.dirs && fs.faults >= old(fs.faults) && store.faults >= old(store.faults)
      invariant applied == AllRecovery(root, todo[..n]) && Grown(t0, fs.tree, root)
      invariant store.Docs(place) == old(store.Docs(place))
      invariant StagedUpTo(fs.tree, root, todo, n) && Provided(store.Docs(place), recorded, todo[..n])
    {
      var staged := StageNext(fs, store, place, root, todo, recorded, n, t0);
      if !staged {
        return applied, false;
      }
      AllRecoveryStep(root, todo, n);
      applied := applied + [RecoveryFor(root, todo[n])];
    }
    assert todo[..|todo|] == todo;
    return applied, true;
  }

  /** One step of staging a recovery. */
  method StageNext(fs: Filesystem, store: Store, place: Place, root: Path, todo: seq<FileChange>, recorded: map<Path, Digest>, n: nat, ghost t0: Tree)
    returns (ok: bool)
    requires Closed(fs.tree) && root in fs.tree.dirs && Closed(t0) && n < |todo| && Grown(t0, fs.tree, root)
    requires StagedUpTo(fs.tree, root, todo, n) && Provided(store.Docs(place), recorded, todo[..n]) && Standing(todo, t0.files)
    modifies fs`tree, fs`faults, store`faults
    ensures Closed(fs.tree) && root in fs.tree.dirs && fs.faults >= old(fs.faults) && store.faults >= old(store.faults)
    ensures Grown(t0, fs.tree, root)
    ensures store.Docs(place) == old(store.Docs(place))
    ensures ok ==> StagedUpTo(fs.tree, root, todo, n + 1) && Provided(store.Docs(place), recorded, todo[..n + 1])
    ensures !ok && fs.faults == old(fs.faults) && store.faults == old(store.faults) ==>
              !Provided(store.Docs(place), recorded, todo) || !UpdatedOnce(todo)
  {
    var c := todo[n];
    UpdatedPathsStand(todo, n, t0.files);
    assert c in todo;
    ghost var before, docs := fs.tree, store.Docs(place);
    ok := true;
    if c.action == Updated {
      if c.path !in recorded || recorded[c.path] != c.previousSha {
        return false;
      }
      NotUpdatedBefore(todo, n);
      ok := StageBackup(fs, store, place, root, c, t0, UpdatedPaths(todo[..n]));
      GrownTransitive(t0, before, fs.tree, root);
    }
    if ok {
      StagedStep(before, fs.tree, root, todo, n, docs, recorded);
    }
  }

  lemma StagedStep(t: Tree, t': Tree, root: Path, todo: seq<FileChange>, n: nat, docs: Option<Directory>, recorded: map<Path, Digest>)
    requires n < |todo| && StagedUpTo(t, root, todo, n) && Provided(docs, recorded, todo[..n]) && Grown(t, t', root)
    requires todo[n].action == Updated ==>
               CopyPath(root, todo[n].path) !in t.files && IsCopied(t'.files, root, todo[n]) &&
               CopyShape(t', root, UpdatedPaths(todo[..n]) + {todo[n].path}) &&
               HoldsBackup(docs, todo[n]) && todo[n].path in recorded && recorded[todo[n].path] == todo[n].previousSha
    requires todo[n].action != Updated ==> t' == t
    ensures StagedUpTo(t', root, todo, n + 1) && Provided(docs, recorded, todo[..n + 1])
  {
    UpdatedPathsStep(todo, n);
    CopiedStep(t, t', root, todo, n);
    ProvidedStep(docs, recorded, todo, n);
  }

  lemma NotUpdatedBefore(todo: seq<FileChange>, n: nat)
    requires n < |todo| && todo[n].action == Updated
    ensures UpdatedOnce(todo) ==> todo[n].path !in UpdatedPaths(todo[..n])
  {
    forall c | c in todo[..n] && c.action == Updated && UpdatedOnce(todo)
      ensures c.path != todo[n].path
    {
      var i :| 0 <= i < n && todo[..n][i] == c;
      assert todo[i].path != todo[n].path;
    }
  }

  lemma UpdatedPathsStep(todo: seq<FileChange>, n: nat)
    requires n < |todo|
    ensures UpdatedPaths(todo[..n + 1]) ==
            if todo[n].action == Updated then UpdatedPaths(todo[..n]) + {todo[n].path} else UpdatedPaths(todo[..n])
  {
    assert todo[..n + 1] == todo[..n] + [todo[n]];
  }

  // ---------------------------------------------------------------- undoing from the recovery directory

  /** With every copy in place the changes can be taken back. */
  lemma CopiedTakeable(t0: Tree, t: Tree, root: Path, todo: seq<FileChange>)
    requires Closed(t) && Grown(t0, t, root)
    requires Standing(todo, t0.files) && NothingInside(root, t0.files) && StagedUpTo(t, root, todo, |todo|)
    ensures CopyShape(t, root, UpdatedPaths(todo))
    ensures Takeable(AllRecovery(root, todo), t, {root}) && ChangesOf(AllRecovery(root, todo)) == todo
  {
    var applied := AllRecovery(root, todo);
    assert ChangesOf(applied) == todo && todo[..|todo|] == todo;
    forall i | 0 <= i < |todo|
      ensures BackupIn(applied[i], t.files, {root}) && WithinReach(t, applied[i].change.path)
    {
      assert todo[i] in todo && todo[i].path in t.files;
      HiddenByStage(root, todo[i].path);
      HiddenByStage(root, CopyPath(root, todo[i].path));
      JoinWithin(root, todo[i].path);
    }
    forall i, j | 0 <= i < j < |todo| && applied[i].backup.Some?
      ensures applied[i].backup != applied[j].backup
    {
      if applied[j].backup.Some? && applied[i].backup == applied[j].backup {
        JoinInjective(root, todo[i].path, todo[j].path);
      }
    }
  }

  /** Outside the recovery directory each path holds its old content, or what one of its own changes leaves when taken back. */
  ghost predicate EachOldOrReverted(root: Path, todo: seq<FileChange>, before: Files, now: Files) {
    forall p | !Within(root, p) :: OldOrReverted(todo, p, At(before, p), At(now, p))
  }

  /** A complete undo leaves no regular file in the recovery directory. */
  lemma RecoveryEmptied(start: Files, t0: Tree, t: Tree, now: Files, root: Path, todo: seq<FileChange>)
    requires NothingInside(root, t0.files) && start == t.files && CopyShape(t, root, UpdatedPaths(todo))
    requires WorkingFiles(AllRecovery(root, todo), 0, start, now, {root}, true)
    ensures NothingInside(root, now)
  {
    var applied := AllRecovery(root, todo);
    forall q | q in UpdatedPaths(todo)
      ensures CopyPath(root, q) !in now
    {
      var c :| c in todo && c.action == Updated && c.path == q;
      var i :| 0 <= i < |todo| && todo[i] == c;
      assert applied[i].backup == Some(CopyPath(root, q));
    }
    forall p | p in now
      ensures !Within(root, p)
    {
      HiddenByStage(root, p);
    }
  }

  /** Everything a recovery needs besides working operations. */
  ghost predicate RecoveryPossible(t: Tree, root: Path, docs: Option<Directory>, todo: seq<FileChange>, recorded: map<Path, Digest>) {
    SafePath(root) && !Exists(t, root) && !Blocked(t, root) && AllBackupsHeld(docs, todo) && RecordsAgree(recorded, todo)
  }

  /** How the restored target is recognised: by the snapshot it was prepared from, or by a lock rebuilt from the journal. */
  datatype Check = AsPrepared(snapshot: TargetSnapshot) | AsRebuilt(locks: seq<LockedFile>, checksum: SnapshotChecksum)

  function ChecksumFor(check: Check): SnapshotChecksum {
    if check.AsPrepared? then check.snapshot.checksum else check.checksum
  }

  ghost predicate CheckPasses(files: Files, check: Check) {
    match check
    case AsPrepared(snapshot) => AsExpected(files, snapshot)
    case AsRebuilt(locks, checksum) =>
      ValidLockFiles(locks) && AllSafe(files) && exists owners :: IsLockIndex(locks, owners) && IsSnapshot(files, owners, checksum.files)
  }

  method RunCheck(fs: Filesystem, check: Check) returns (r: Option<TargetSnapshot>)
    modifies fs`faults, fs`seen
    ensures fs.faults >= old(fs.faults) && old(fs.seen) <= fs.seen
    ensures r.Some? ==> CheckPasses(fs.tree.files, check) && r.value == TargetSnapshot(ChecksumFor(check).files, ChecksumFor(check))
    ensures r.None? && fs.faults == old(fs.faults) ==> !CheckPasses(fs.tree.files, check)
  {
    match check {
      case AsPrepared(snapshot) =>
        var failure := VerifySnapshot(fs, snapshot);
        return if failure.None? then Some(snapshot) else None;
      case AsRebuilt(locks, checksum) =>
        var inspected := InspectTarget(fs, locks);
        if inspected.Err? {
          return None;
        }
        ghost var index := SomeIndex(locks);
        if inspected.value.checksum != checksum {
          if owners :| IsLockIndex(locks, owners) && IsSnapshot(fs.tree.files, owners, checksum.files) {
            SnapshotUnique(fs.tree.files, owners, owners, checksum.files, inspected.value.files);
          }
          return None;
        }
        assert IsSnapshot(fs.tree.files, index, checksum.files);
        return Some(inspected.value);
    }
  }

  /** Recoverable changes, taken back, lead to `base` again. */
  lemma RecoverableReverts(todo: seq<FileChange>, base: Files, files: Files)
    requires Recoverable(todo, base, files)
    ensures Standing(todo, files) && UpdatedOnce(todo) && Reverted(files, todo) == base
  {
    forall c | c in todo
      ensures (c.action == Created || c.action == Updated) && c.path in files
    {
      OverlaidAt(base, todo, c);
    }
    forall i, j | 0 <= i < j < |todo|
      ensures todo[i].path != todo[j].path
    {
      assert ChangePath(todo[i]) != ChangePath(todo[j]);
    }
    forall p
      ensures At(Reverted(files, todo), p) == At(base, p)
    {
      if c :| c in todo && c.path == p {
        RevertedAt(files, todo, c);
      } else {
        RevertedElsewhere(files, todo, p);
        OverlaidElsewhere(base, todo, p);
      }
    }
    SameEverywhere(Reverted(files, todo), base);
  }

  lemma RevertedMixture(root: Path, todo: seq<FileChange>, base: Files, files: Files, now: Files)
    requires Recoverable(todo, base, files) && EachOldOrReverted(root, todo, files, now)
    ensures MixedOutside(root, base, files, now)
  {
    forall p
      ensures At(Project(now, {root}), p) == At(Project(base, {root}), p) || At(Project(now, {root}), p) == At(Project(files, {root}), p)
    {
      HiddenByStage(root, p);
      if !Within(root, p) {
        assert OldOrReverted(todo, p, At(files, p), At(now, p));
      }
    }
  }

  /**
   Brings the target from `files` back to `base`. On success the target is exactly `base`; on every exit each
   path outside the recovery directory holds its old or its new content, all the same one unless an operation fails;
   and it can only fail if an operation fails or something it needs is missing.
   */
  method RestoreTarget(fs: Filesystem, store: Store, place: Place, root: Path, todo: seq<FileChange>, recorded: map<Path, Digest>,
                       check: Check, ghost base: Files)
    returns (r: Option<TargetSnapshot>)
    requires Closed(fs.tree) && Recoverable(todo, base, fs.tree.files)
    modifies fs, store`faults
    ensures Closed(fs.tree) && fs.faults >= old(fs.faults) && store.faults >= old(store.faults) && old(fs.seen) <= fs.seen
    ensures r.Some? ==> fs.tree.files == base && NothingInside(root, base) && CheckPasses(base, check) &&
                        r.value == TargetSnapshot(ChecksumFor(check).files, ChecksumFor(check))
    ensures MixedOutside(root, base, old(fs.tree.files), fs.tree.files)
    ensures AllOrNothing(root, base, old(fs.tree.files), fs.tree.files) || fs.faults > old(fs.faults)
    ensures InsideKept(root, old(fs.tree.files), fs.tree.files)
    ensures r.None? && fs.faults == old(fs.faults) && store.faults == old(store.faults) ==>
              !RecoveryPossible(old(fs.tree), root, store.Docs(place), todo, recorded) || !CheckPasses(base, check)
  {
    ghost var t0 := fs.tree;
    MixtureReflexive(Project(base, {root}), Project(t0.files, {root}));
    RecoverableReverts(todo, base, t0.files);
    var ready := OpenRecovery(fs, root);
    if !ready {
      return None;
    }
    r := UndoFromRecovery(fs, store, place, root, todo, recorded, check, t0);
    RevertedMixture(root, todo, base, t0.files, fs.tree.files);
  }

  /** Makes a recovery directory where nothing was. */
  method OpenRecovery(fs: Filesystem, root: Path) returns (ok: bool)
    requires Closed(fs.tree)
    modifies fs`tree, fs`faults
    ensures Closed(fs.tree) && fs.faults >= old(fs.faults) && fs.tree.files == old(fs.tree.files)
    ensures ok ==> SafePath(root) && !Exists(old(fs.tree), root) && !Blocked(old(fs.tree), root)
    ensures ok ==> root in fs.tree.dirs && NothingInside(root, fs.tree.files) && (forall d | d in old(fs.tree.dirs) :: !Within(root, d)) &&
                   fs.tree.dirs == old(fs.tree.dirs) + Ancestors(root) + {root}
    ensures !ok && fs.faults == old(fs.faults) ==> !SafePath(root) || Exists(old(fs.tree), root) || Blocked(old(fs.tree), root)
  {
    ghost var t0 := fs.tree;
    ok := ResolveNonexistent(fs, root);
    if ok {
      NothingBelow(t0, root);
      var blocked;
      ok, blocked := CreateSafeDirectory(fs, root);
      NoFileAbove(fs.tree, root);
    }
  }

  /** Outside the recovery directory no path is touched but those of the changes. */
  ghost predicate OnlyThesePaths(root: Path, todo: seq<FileChange>, before: Files, now: Files) {
    forall p | !Within(root, p) && !ChangesPath(todo, p) :: At(now, p) == At(before, p)
  }

  lemma ElsewherePruned(root: Path, todo: seq<FileChange>, files: Files, t2: Tree, t3: Tree, t: Tree)
    requires Project(t2.files, {root}) == Project(files, {root}) && OnlyThesePaths(root, todo, t2.files, t3.files)
    requires Project(t.files, {root}) == Project(t3.files, {root})
    ensures OnlyThesePaths(root, todo, files, t.files)
  {
    forall p | !Within(root, p) && !ChangesPath(todo, p)
      ensures At(t.files, p) == At(files, p)
    {
      HiddenByStage(root, p);
      ProjectAt(files, {root}, p);
      ProjectAt(t2.files, {root}, p);
      ProjectAt(t3.files, {root}, p);
      ProjectAt(t.files, {root}, p);
    }
  }

  lemma TheirPathsAreThese(root: Path, todo: seq<FileChange>, before: Files, now: Files)
    requires OnlyTheirPaths(AllRecovery(root, todo), before, now)
    ensures OnlyThesePaths(root, todo, before, now)
  {
    forall p | !Within(root, p) && !ChangesPath(todo, p)
      ensures At(now, p) == At(before, p)
    {
      forall i | 0 <= i < |todo|
        ensures p != todo[i].path && AllRecovery(root, todo)[i].backup != Some(p)
      {
        assert todo[i] in todo;
        JoinWithin(root, todo[i].path);
      }
    }
  }

  /**
   The recovery proper, inside a new recovery directory that is removed on every exit. Success means that the changes
   are taken back, last first, and that the check passed.
   */
  method UndoFromRecovery(fs: Filesystem, store: Store, place: Place, root: Path, todo: seq<FileChange>, recorded: map<Path, Digest>,
                          check: Check, ghost t0: Tree)
    returns (r: Option<TargetSnapshot>)
    requires Closed(fs.tree) && Closed(t0) && root in fs.tree.dirs && fs.tree.files == t0.files && NothingInside(root, t0.files)
    requires fs.tree.dirs == t0.dirs + Ancestors(root) + {root} && forall d | d in t0.dirs :: !Within(root, d)
    requires Standing(todo, t0.files)
    modifies fs, store`faults
    ensures Closed(fs.tree) && fs.faults >= old(fs.faults) && store.faults >= old(store.faults) && old(fs.seen) <= fs.seen
    ensures OnlyThesePaths(root, todo, t0.files, fs.tree.files) && EachOldOrReverted(root, todo, t0.files, fs.tree.files)
    ensures r.Some? ==> r.value == TargetSnapshot(ChecksumFor(check).files, ChecksumFor(check)) && NothingInside(root, fs.tree.files) &&
                        fs.tree.files == Reverted(t0.files, todo) && CheckPasses(fs.tree.files, check) &&
                        Provided(store.Docs(place), recorded, todo)
    ensures AllOrNothing(root, Reverted(t0.files, todo), t0.files, fs.tree.files) || fs.faults > old(fs.faults)
    ensures fs.faults == old(fs.faults) && store.faults == old(store.faults) && Provided(store.Docs(place), recorded, todo) && UpdatedOnce(todo) ==>
              fs.tree.files == Reverted(t0.files, todo)
    ensures r.None? && fs.faults == old(fs.faults) && store.faults == old(store.faults) ==>
              !Provided(store.Docs(place), recorded, todo) || !UpdatedOnce(todo) || !CheckPasses(Reverted(t0.files, todo), check)
  {
    ghost var t1 := fs.tree;
    assert CopyShape(t1, root, {});
    NothingInsideProject(root, t0.files);
    var applied, staged := StageRecovery(fs, store, place, root, todo, recorded, t1);
    ghost var t2 := fs.tree;
    GrownProject(t1, t2, root);
    r := None;
    if staged {
      CopiedTakeable(t1, t2, root, todo);
      r := UndoAndCheck(fs, root, applied, check, t1, t2, todo);
    }
    ghost var t3 := fs.tree;
    var removed := fs.RemoveAll(root);
    PrunedProject(t3, fs.tree, root);
    RecoveryEnded(root, todo, t0.files, t2, t3, fs.tree);
    if NothingInside(root, fs.tree.files) {
      NothingInsideProject(root, fs.tree.files);
    }
    if r.Some? {
      OnlyOutside(root, t3.files, fs.tree.files);
    }
  }

  /** What holds of the target when the recovery directory has been removed, or partly. */
  lemma RecoveryEnded(root: Path, todo: seq<FileChange>, files: Files, t2: Tree, t3: Tree, t: Tree)
    requires Standing(todo, files) && NothingInside(root, files) && Project(t2.files, {root}) == Project(files, {root})
    requires OnlyThesePaths(root, todo, t2.files, t3.files) && EachOldOrReverted(root, todo, t2.files, t3.files)
    requires Project(t.files, {root}) == Project(t3.files, {root})
    ensures OnlyThesePaths(root, todo, files, t.files) && EachOldOrReverted(root, todo, files, t.files)
    ensures Project(t2.files, {root}) == files
    ensures Project(t3.files, {root}) == Reverted(files, todo) ==> SameOutside(root, Reverted(files, todo), t.files)
    ensures Project(t3.files, {root}) == Project(t2.files, {root}) ==> SameOutside(root, files, t.files)
  {
    NothingInsideProject(root, files);
    ElsewherePruned(root, todo, files, t2, t3, t);
    RevertedPruned(root, todo, files, t2, t3, t);
    RevertedOutside(root, todo, files);
  }

  /** Taking changes back outside the recovery directory leaves nothing in it. */
  lemma {:induction false} RevertedOutside(root: Path, todo: seq<FileChange>, files: Files)
    requires NothingInside(root, files) && forall c | c in todo :: !Within(root, c.path)
    ensures NothingInside(root, Reverted(files, todo)) && Project(Reverted(files, todo), {root}) == Reverted(files, todo)
    decreases |todo|
  {
    if todo == [] {
      NothingInsideProject(root, files);
    } else {
      var n := |todo| - 1;
      assert todo[n] in todo && forall c | c in todo[..n] :: c in todo;
      RevertedOutside(root, todo[..n], RevertOne(files, todo[n]));
    }
  }

  lemma RevertedPruned(root: Path, todo: seq<FileChange>, files: Files, t2: Tree, t3: Tree, t: Tree)
    requires Project(t2.files, {root}) == Project(files, {root}) && EachOldOrReverted(root, todo, t2.files, t3.files)
    requires Project(t.files, {root}) == Project(t3.files, {root})
    ensures EachOldOrReverted(root, todo, files, t.files)
  {
    forall p | !Within(root, p)
      ensures OldOrReverted(todo, p, At(files, p), At(t.files, p))
    {
      HiddenByStage(root, p);
      ProjectAt(files, {root}, p);
      ProjectAt(t2.files, {root}, p);
      ProjectAt(t3.files, {root}, p);
      ProjectAt(t.files, {root}, p);
      assert OldOrReverted(todo, p, At(t2.files, p), At(t3.files, p));
    }
  }

  /** Takes everything back; with the recovery directory emptied of files, the target must show the earlier snapshot. */
  method UndoAndCheck(fs: Filesystem, root: Path, applied: seq<AppliedChange>, check: Check,
                      ghost t1: Tree, ghost t2: Tree, ghost todo: seq<FileChange>)
    returns (r: Option<TargetSnapshot>)
    requires Closed(fs.tree) && fs.tree == t2 && applied == AllRecovery(root, todo) && ChangesOf(applied) == todo
    requires Takeable(applied, t2, {root}) && NothingInside(root, t1.files) && CopyShape(t2, root, UpdatedPaths(todo))
    modifies fs
    ensures Closed(fs.tree) && fs.faults >= old(fs.faults) && old(fs.seen) <= fs.seen
    ensures OnlyThesePaths(root, todo, t2.files, fs.tree.files) && EachOldOrReverted(root, todo, t2.files, fs.tree.files)
    ensures r.Some? ==> r.value == TargetSnapshot(ChecksumFor(check).files, ChecksumFor(check)) && NothingInside(root, fs.tree.files) &&
                        fs.tree.files == Reverted(Project(t2.files, {root}), todo) && CheckPasses(fs.tree.files, check)
    ensures Project(fs.tree.files, {root}) == Reverted(Project(t2.files, {root}), todo) || fs.faults > old(fs.faults)
    ensures r.None? && fs.faults == old(fs.faults) ==> !CheckPasses(Reverted(Project(t2.files, {root}), todo), check)
  {
    assert Elements([]) == {};
    var undone := RollbackApplied(fs, applied, [], t2.files, {root}, t2, false);
    TheirPathsAreThese(root, todo, t2.files, fs.tree.files);
    TakenBackEach(root, todo, t2.files, fs.tree.files, undone);
    if !undone {
      return None;
    }
    RecoveryEmptied(t2.files, t1, t2, fs.tree.files, root, todo);
    NothingInsideProject(root, fs.tree.files);
    r := RunCheck(fs, check);
  }

  lemma TakenBackEach(root: Path, todo: seq<FileChange>, before: Files, now: Files, ok: bool)
    requires ChangesOf(AllRecovery(root, todo)) == todo && TakingBack(AllRecovery(root, todo), 0, before, now, {root}, ok)
    ensures EachOldOrReverted(root, todo, before, now)
    ensures ok ==> Project(now, {root}) == Reverted(Project(before, {root}), todo) &&
                   WorkingFiles(AllRecovery(root, todo), 0, before, now, {root}, true)
  {
    assert todo[..0] == [];
    forall p | !Within(root, p)
      ensures OldOrReverted(todo, p, At(before, p), At(now, p))
    {
      HiddenByStage(root, p);
    }
  }

  lemma OnlyOutside(root: Path, files: Files, now: Files)
    requires NothingInside(root, files) && now.Keys <= files.Keys && Project(now, {root}) == Project(files, {root})
    ensures now == files
  {
    NothingInsideProject(root, files);
    NothingInsideProject(root, now);
  }
}
