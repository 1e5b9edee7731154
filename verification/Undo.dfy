/**
 Undoing applied changes: the reverse loop shared by a failed commit, a failed publication and an explicit
 rollback. Created files are removed, updated files are replaced by their backups, and directories made
 on the way are removed again, last first.
 */
module Undo {
  import opened Digests
  import opened Ordering
  import opened Paths
  import opened Model
  import opened Overlay
  import opened Disk

  datatype AppliedChange = AppliedChange(change: FileChange, backup: Option<Path>)

  function ChangesOf(applied: seq<AppliedChange>): (r: seq<FileChange>)
    ensures |r| == |applied|
    ensures forall i | 0 <= i < |applied| :: r[i] == applied[i].change
  {
    seq(|applied|, i requires 0 <= i < |applied| => applied[i].change)
  }

  /** What undoing one change needs to find: nothing there before it, or a backup of what was there. */
  ghost predicate Undoable(a: AppliedChange, base: Files, files: Files, roots: set<Path>) {
    !Hidden(roots, a.change.path) &&
    match a.change.action
    case Created => a.change.path !in base && a.backup.None?
    case Updated => a.change.path in base && a.backup.Some? && Hidden(roots, a.backup.value) &&
                    At(files, a.backup.value) == Some(base[a.change.path])
    case _ => false
  }

  ghost predicate DistinctBackups(applied: seq<AppliedChange>) {
    forall i, j | 0 <= i < j < |applied| :: applied[i].backup.Some? ==> applied[i].backup != applied[j].backup
  }

  /** The applied changes, in distinct places, can all be undone. */
  ghost predicate AllUndoable(applied: seq<AppliedChange>, base: Files, files: Files, roots: set<Path>) {
    DistinctKeys(ChangesOf(applied), ChangePath) && DistinctBackups(applied) &&
    forall i | 0 <= i < |applied| :: Undoable(applied[i], base, files, roots)
  }

  function Restored(now: Files, p: Path, base: Files): Files {
    if p in base then now[p := base[p]] else now - {p}
  }

  /** Restoring one path keeps a mixture, and undoes the last applied change. */
  lemma RestoreStep(base: Files, all: seq<FileChange>, k: nat, now: Files)
    requires k < |all| && DistinctKeys(all, ChangePath)
    requires Mixture(base, Overlaid(base, all), now)
    ensures Mixture(base, Overlaid(base, all), Restored(now, all[k].path, base))
    ensures now == Overlaid(base, all[..k + 1]) ==> Restored(now, all[k].path, base) == Overlaid(base, all[..k])
  {
    var upTo := all[..k + 1];
    assert upTo[..|upTo| - 1] == all[..k] && upTo[|upTo| - 1] == all[k];
    UndoLast(base, upTo);
    forall p
      ensures At(Restored(now, all[k].path, base), p) == if p == all[k].path then At(base, p) else At(now, p)
    {
    }
  }

  /** The created file is gone, or its backup has taken the place of the updated one. */
  ghost predicate TookBack(item: AppliedChange, before: Files, now: Files) {
    if item.change.action == Created then item.change.path !in now
    else item.backup.Some? && item.backup.value in before && At(now, item.change.path) == Some(before[item.backup.value]) &&
         (item.backup.value != item.change.path ==> item.backup.value !in now)
  }

  /** Undoes one change, if it `fits` what is there; in any case no other path is touched. */
  method UndoOne(fs: Filesystem, item: AppliedChange, ghost base: Files, ghost roots: set<Path>, ghost fits: bool) returns (ok: bool)
    requires Closed(fs.tree)
    requires fits ==> Undoable(item, base, fs.tree.files, roots) && item.change.path in fs.tree.files
    modifies fs`tree, fs`faults
    ensures Closed(fs.tree) && fs.faults >= old(fs.faults)
    ensures fits ==> fs.tree.dirs == old(fs.tree.dirs) && (!ok ==> fs.faults > old(fs.faults))
    ensures fits && ok ==> Project(fs.tree.files, roots) == Restored(old(Project(fs.tree.files, roots)), item.change.path, base)
    ensures !ok ==> fs.tree.files == old(fs.tree.files)
    ensures forall p | p != item.change.path && item.backup != Some(p) :: At(fs.tree.files, p) == At(old(fs.tree.files), p)
    ensures fits && ok && item.change.action == Updated ==> item.backup.value !in fs.tree.files
    ensures ok ==> TookBack(item, old(fs.tree.files), fs.tree.files)
    ensures item.change.path !in old(fs.tree.dirs) ==> fs.tree.dirs == old(fs.tree.dirs)
    ensures !ok && fs.faults == old(fs.faults) ==> !CanTakeBack(item, old(fs.tree))
  {
    var target := item.change.path;
    if fits {
      NotBlocked(fs.tree, target);
    }
    NoFileAbove(fs.tree, target);
    if item.change.action == Created {
      ProjectDrop(fs.tree.files, roots, target);
      ok := fs.Remove(target);
      return;
    }
    if item.backup.None? {
      return false;
    }
    var readable := fs.TouchMode(item.backup.value);
    if !readable {
      return false;
    }
    if fits {
      ProjectMove(fs.tree.files, roots, item.backup.value, target);
    }
    ok := fs.Rename(item.backup.value, target);
  }

  /** What taking a change back needs besides working operations. */
  ghost predicate CanTakeBack(item: AppliedChange, t: Tree) {
    WithinReach(t, item.change.path) && (item.change.action == Created || (item.backup.Some? && item.backup.value in t.files))
  }

  /** A file can stand there: the directories are there, and it is none of them. */
  predicate WithinReach(t: Tree, p: Path) {
    p !in t.dirs && ParentsExist(t, p)
  }

  lemma NoFileAbove(t: Tree, p: Path)
    requires Closed(t)
    ensures ParentsExist(t, p) ==> !Blocked(t, p)
  {
    if ParentsExist(t, p) {
      forall a | Ancestor(a, p)
        ensures a !in t.files
      {
        assert a in Ancestors(p);
      }
    }
  }

  /** Where a file stands, its ancestors are directories. */
  lemma NotBlocked(t: Tree, p: Path)
    requires Closed(t) && Exists(t, p)
    ensures !Blocked(t, p) && ParentsExist(t, p)
  {
    assert Ancestors(p) <= t.dirs;
    forall a | Ancestor(a, p)
      ensures a !in t.files
    {
      assert a in Ancestors(p);
    }
  }

  /** The first `n` applied changes can still be undone, and their files are still there. */
  ghost predicate Remaining(applied: seq<AppliedChange>, n: nat, base: Files, files: Files, roots: set<Path>)
    requires n <= |applied|
  {
    forall i | 0 <= i < n :: Undoable(applied[i], base, files, roots) && applied[i].change.path in files
  }

  lemma RemainingStep(applied: seq<AppliedChange>, n: nat, base: Files, before: Files, after: Files, roots: set<Path>)
    requires n < |applied| && Remaining(applied, n + 1, base, before, roots)
    requires DistinctKeys(ChangesOf(applied), ChangePath) && DistinctBackups(applied)
    requires forall p | p != applied[n].change.path && applied[n].backup != Some(p) :: At(after, p) == At(before, p)
    ensures Remaining(applied, n, base, after, roots)
  {
    var changes := ChangesOf(applied);
    forall i | 0 <= i < n
      ensures Undoable(applied[i], base, after, roots) && applied[i].change.path in after
    {
      assert Undoable(applied[i], base, before, roots) && Undoable(applied[n], base, before, roots);
      assert ChangePath(changes[i]) != ChangePath(changes[n]);
      assert At(after, applied[i].change.path) == At(before, applied[i].change.path);
      if applied[i].backup.Some? {
        assert At(after, applied[i].backup.value) == At(before, applied[i].backup.value);
      }
    }
  }

  /** Working files only disappear, and with a complete undo every used backup has. */
  ghost predicate WorkingFiles(applied: seq<AppliedChange>, n: nat, start: Files, files: Files, roots: set<Path>, ok: bool)
    requires n <= |applied|
  {
    (forall p | p in files && Hidden(roots, p) :: p in start) &&
    (ok ==> forall i | n <= i < |applied| && applied[i].backup.Some? :: applied[i].backup.value !in files)
  }

  lemma WorkingFilesStep(applied: seq<AppliedChange>, n: nat, start: Files, before: Files, after: Files, roots: set<Path>,
                         okBefore: bool, undone: bool)
    requires n < |applied| && WorkingFiles(applied, n + 1, start, before, roots, okBefore)
    requires !Hidden(roots, applied[n].change.path)
    requires forall i | n <= i < |applied| && applied[i].backup.Some? :: Hidden(roots, applied[i].backup.value)
    requires forall p | p != applied[n].change.path && applied[n].backup != Some(p) :: At(after, p) == At(before, p)
    requires applied[n].backup.Some? && undone ==> applied[n].backup.value !in after
    requires !undone ==> after == before
    ensures WorkingFiles(applied, n, start, after, roots, okBefore && undone)
  {
    forall p | p in after && Hidden(roots, p)
      ensures p in start
    {
      if undone {
        assert At(after, p) == At(before, p);
      }
    }
    if okBefore && undone {
      forall i | n <= i < |applied| && applied[i].backup.Some?
        ensures applied[i].backup.value !in after
      {
        var p := applied[i].backup.value;
        if i > n && applied[n].backup != Some(p) {
          assert At(after, p) == At(before, p);
        }
      }
    }
  }

  /** With all but the first `n` changes undone, or tried: a mixture, exactly what is left to undo if all went well. */
  ghost predicate Undoing(applied: seq<AppliedChange>, n: nat, base: Files, start: Files, files: Files, roots: set<Path>, ok: bool)
    requires n <= |applied|
  {
    Remaining(applied, n, base, files, roots) && WorkingFiles(applied, n, start, files, roots, ok) &&
    Mixture(base, Overlaid(base, ChangesOf(applied)), Project(files, roots)) &&
    (ok ==> Project(files, roots) == Overlaid(base, ChangesOf(applied)[..n]))
  }

  /** No path is touched but those of the changes and of their backups. */
  ghost predicate OnlyTheirPaths(applied: seq<AppliedChange>, before: Files, now: Files) {
    forall p | (forall i | 0 <= i < |applied| :: p != applied[i].change.path && applied[i].backup != Some(p)) :: At(now, p) == At(before, p)
  }

  /** The undo so far: no other path is touched, and what fits is `Undoing`, with a failure for each change that was not undone. */
  ghost predicate UndoneFrom(applied: seq<AppliedChange>, n: nat, base: Files, start: Tree, t: Tree, roots: set<Path>, ok: bool,
                             fits: bool, failed: bool)
    requires n <= |applied|
  {
    OnlyTheirPaths(applied, start.files, t.files) &&
    (Takeable(applied, start, roots) ==> TakingBack(applied, n, start.files, t.files, roots, ok) && t.dirs == start.dirs && (ok || failed)) &&
    (fits ==> t.dirs == start.dirs && Undoing(applied, n, base, start.files, t.files, roots, ok) && (ok || failed))
  }

  // ---------------------------------------------------------------- whatever the order, and however often a path is named

  /** What taking a change back leaves at its path. */
  function RevertedTo(c: FileChange): Option<Bytes> {
    if c.action != Created && c.previousSha.Sha256? then Some(c.previousSha.content) else None
  }

  function RevertOne(files: Files, c: FileChange): Files {
    if c.action != Created && c.previousSha.Sha256? then files[c.path := c.previousSha.content] else files - {c.path}
  }

  /** The files with the changes taken back, last first. */
  function Reverted(files: Files, todo: seq<FileChange>): Files
    decreases |todo|
  {
    if todo == [] then files else Reverted(RevertOne(files, todo[|todo| - 1]), todo[..|todo| - 1])
  }

  lemma {:induction false} RevertedElsewhere(files: Files, todo: seq<FileChange>, p: Path)
    requires forall c | c in todo :: c.path != p
    ensures At(Reverted(files, todo), p) == At(files, p)
    decreases |todo|
  {
    if todo != [] {
      var n := |todo| - 1;
      assert todo[n] in todo && forall c | c in todo[..n] :: c in todo;
      RevertedElsewhere(RevertOne(files, todo[n]), todo[..n], p);
    }
  }

  lemma {:induction false} RevertedAt(files: Files, todo: seq<FileChange>, c: FileChange)
    requires DistinctKeys(todo, ChangePath) && c in todo
    ensures At(Reverted(files, todo), c.path) == RevertedTo(c)
    decreases |todo|
  {
    var n := |todo| - 1;
    DistinctPrefix(todo, n, ChangePath);
    NotInPrefix(todo, n, ChangePath);
    if c == todo[n] {
      forall d | d in todo[..n]
        ensures d.path != c.path
      {
        assert ChangePath(d) != ChangePath(todo[n]);
      }
      RevertedElsewhere(RevertOne(files, c), todo[..n], c.path);
    } else {
      var k :| 0 <= k < |todo| && todo[k] == c;
      assert todo[..n][k] == c;
      RevertedAt(RevertOne(files, todo[n]), todo[..n], c);
    }
  }

  /** The path holds what it held, or what one of its own changes leaves there when it is taken back. */
  ghost predicate OldOrReverted(todo: seq<FileChange>, p: Path, held: Option<Bytes>, holds: Option<Bytes>) {
    holds == held || exists c :: c in todo && c.path == p && holds == RevertedTo(c)
  }

  /** Each backup is there and has the recorded digest; paths may repeat, backups do not. */
  ghost predicate BackedUp(applied: seq<AppliedChange>, start: Files, roots: set<Path>) {
    DistinctBackups(applied) && forall i | 0 <= i < |applied| :: BackupIn(applied[i], start, roots)
  }

  /** Everything taking the changes back needs besides working operations. */
  ghost predicate Takeable(applied: seq<AppliedChange>, start: Tree, roots: set<Path>) {
    BackedUp(applied, start.files, roots) && forall i | 0 <= i < |applied| :: WithinReach(start, applied[i].change.path)
  }

  ghost predicate BackupIn(a: AppliedChange, start: Files, roots: set<Path>) {
    !Hidden(roots, a.change.path) &&
    if a.change.action == Created then a.backup.None?
    else a.backup.Some? && Hidden(roots, a.backup.value) && a.backup.value in start &&
         a.change.previousSha == Sha256(start[a.backup.value])
  }

  /** With all but the first `n` changes taken back, or tried. */
  ghost predicate TakingBack(applied: seq<AppliedChange>, n: nat, start: Files, files: Files, roots: set<Path>, ok: bool)
    requires n <= |applied|
  {
    WorkingFiles(applied, n, start, files, roots, ok) &&
    (forall i | 0 <= i < n && applied[i].backup.Some? :: At(files, applied[i].backup.value) == At(start, applied[i].backup.value)) &&
    (forall p | !Hidden(roots, p) :: OldOrReverted(ChangesOf(applied), p, At(start, p), At(files, p))) &&
    (ok ==> Reverted(Project(files, roots), ChangesOf(applied)[..n]) == Reverted(Project(start, roots), ChangesOf(applied)))
  }

  lemma NothingTakenBack(applied: seq<AppliedChange>, start: Files, roots: set<Path>)
    ensures TakingBack(applied, |applied|, start, start, roots, true)
  {
    assert ChangesOf(applied)[..|applied|] == ChangesOf(applied);
  }

  lemma RevertedNext(files: Files, now: Files, todo: seq<FileChange>, n: nat)
    requires n < |todo| && now == RevertOne(files, todo[n])
    ensures Reverted(files, todo[..n + 1]) == Reverted(now, todo[..n])
  {
    assert todo[..n + 1][..n] == todo[..n];
  }

  lemma TookBackOne(item: AppliedChange, start: Files, before: Files, now: Files, roots: set<Path>)
    requires BackupIn(item, start, roots) && TookBack(item, before, now)
    requires item.backup.Some? ==> At(before, item.backup.value) == At(start, item.backup.value)
    requires forall p | p != item.change.path && item.backup != Some(p) :: At(now, p) == At(before, p)
    ensures At(now, item.change.path) == RevertedTo(item.change)
    ensures Project(now, roots) == RevertOne(Project(before, roots), item.change)
    ensures item.backup.Some? ==> item.backup.value !in now
  {
    forall p
      ensures At(Project(now, roots), p) == At(RevertOne(Project(before, roots), item.change), p)
    {
      if !Hidden(roots, p) {
        ProjectAt(now, roots, p);
        ProjectAt(before, roots, p);
        assert p != item.change.path ==> At(now, p) == At(before, p);
      }
    }
    SameEverywhere(Project(now, roots), RevertOne(Project(before, roots), item.change));
  }

  lemma TakingBackStep(applied: seq<AppliedChange>, n: nat, start: Files, before: Files, now: Files, roots: set<Path>, ok: bool, undone: bool)
    requires n < |applied| && BackedUp(applied, start, roots) && TakingBack(applied, n + 1, start, before, roots, ok)
    requires forall p | p != applied[n].change.path && applied[n].backup != Some(p) :: At(now, p) == At(before, p)
    requires if undone then TookBack(applied[n], before, now) else now == before
    ensures TakingBack(applied, n, start, now, roots, ok && undone)
  {
    assert BackupIn(applied[n], start, roots);
    if undone {
      TookBackOne(applied[n], start, before, now, roots);
      RevertedNext(Project(before, roots), Project(now, roots), ChangesOf(applied), n);
      PathTakenBack(applied, n, start, before, now, roots);
    }
    BackupsStand(applied, n, start, before, now, roots);
    WorkingFilesStep(applied, n, start, before, now, roots, ok, undone);
  }

  lemma PathTakenBack(applied: seq<AppliedChange>, n: nat, start: Files, before: Files, now: Files, roots: set<Path>)
    requires n < |applied| && At(now, applied[n].change.path) == RevertedTo(applied[n].change)
    requires applied[n].backup.Some? ==> Hidden(roots, applied[n].backup.value)
    requires forall p | p != applied[n].change.path && applied[n].backup != Some(p) :: At(now, p) == At(before, p)
    requires forall p | !Hidden(roots, p) :: OldOrReverted(ChangesOf(applied), p, At(start, p), At(before, p))
    ensures forall p | !Hidden(roots, p) :: OldOrReverted(ChangesOf(applied), p, At(start, p), At(now, p))
  {
    assert ChangesOf(applied)[n] in ChangesOf(applied);
    forall p | !Hidden(roots, p)
      ensures OldOrReverted(ChangesOf(applied), p, At(start, p), At(now, p))
    {
      assert OldOrReverted(ChangesOf(applied), p, At(start, p), At(before, p));
    }
  }

  lemma BackupsStand(applied: seq<AppliedChange>, n: nat, start: Files, before: Files, now: Files, roots: set<Path>)
    requires n < |applied| && BackedUp(applied, start, roots)
    requires forall p | p != applied[n].change.path && applied[n].backup != Some(p) :: At(now, p) == At(before, p)
    ensures forall i | 0 <= i < n && applied[i].backup.Some? :: At(now, applied[i].backup.value) == At(before, applied[i].backup.value)
    ensures forall i | 0 <= i < |applied| && applied[i].backup.Some? :: Hidden(roots, applied[i].backup.value)
  {
    assert BackupIn(applied[n], start, roots);
    forall i | 0 <= i < |applied| && applied[i].backup.Some?
      ensures Hidden(roots, applied[i].backup.value)
    {
      assert BackupIn(applied[i], start, roots);
    }
  }

  method UndoNext(fs: Filesystem, applied: seq<AppliedChange>, n: nat, ghost base: Files, ghost start: Tree, ghost roots: set<Path>, ghost ok: bool,
                  ghost fits: bool, ghost failed: bool)
    returns (undone: bool)
    requires Closed(fs.tree) && 0 < n <= |applied| && (fits ==> AllUndoable(applied, base, start.files, roots))
    requires UndoneFrom(applied, n, base, start, fs.tree, roots, ok, fits, failed)
    modifies fs`tree, fs`faults
    ensures Closed(fs.tree) && fs.faults >= old(fs.faults)
    ensures UndoneFrom(applied, n - 1, base, start, fs.tree, roots, ok && undone, fits, failed || fs.faults > old(fs.faults))
  {
    ghost var before := fs.tree;
    if fits {
      assert Undoable(applied[n - 1], base, before.files, roots);
    }
    undone := UndoOne(fs, applied[n - 1], base, roots, fits);
    UndoneStep(applied, n, base, start, before, fs.tree, roots, ok, undone, fits, failed, failed || fs.faults > old(fs.faults));
  }

  lemma UndoneStepAt(applied: seq<AppliedChange>, k: nat, base: Files, start: Tree, before: Tree, now: Tree, roots: set<Path>,
                   ok: bool, undone: bool, fits: bool, failed: bool, failedNow: bool)
    requires k < |applied| && (fits ==> AllUndoable(applied, base, start.files, roots))
    requires UndoneFrom(applied, k + 1, base, start, before, roots, ok, fits, failed)
    requires forall p | p != applied[k].change.path && applied[k].backup != Some(p) :: At(now.files, p) == At(before.files, p)
    requires if undone then TookBack(applied[k], before.files, now.files) else now.files == before.files
    requires applied[k].change.path !in before.dirs || fits ==> now.dirs == before.dirs
    requires !undone && CanTakeBack(applied[k], before) ==> failedNow
    requires fits && undone ==> Project(now.files, roots) == Restored(Project(before.files, roots), applied[k].change.path, base)
    requires fits && undone && applied[k].change.action == Updated ==> applied[k].backup.value !in now.files
    requires (failed ==> failedNow) && (fits && !undone ==> failedNow)
    ensures UndoneFrom(applied, k, base, start, now, roots, ok && undone, fits, failedNow)
  {
    if Takeable(applied, start, roots) {
      assert WithinReach(start, applied[k].change.path) && BackupIn(applied[k], start.files, roots);
      TakingBackStep(applied, k, start.files, before.files, now.files, roots, ok, undone);
    }
    if fits {
      UndoingStep(applied, k, base, start.files, before.files, now.files, roots, ok, undone);
    }
  }

  lemma UndoneStep(applied: seq<AppliedChange>, n: nat, base: Files, start: Tree, before: Tree, now: Tree, roots: set<Path>,
                   ok: bool, undone: bool, fits: bool, failed: bool, failedNow: bool)
    requires 0 < n <= |applied| && (fits ==> AllUndoable(applied, base, start.files, roots))
    requires UndoneFrom(applied, n, base, start, before, roots, ok, fits, failed)
    requires forall p | p != applied[n - 1].change.path && applied[n - 1].backup != Some(p) :: At(now.files, p) == At(before.files, p)
    requires if undone then TookBack(applied[n - 1], before.files, now.files) else now.files == before.files
    requires applied[n - 1].change.path !in before.dirs || fits ==> now.dirs == before.dirs
    requires !undone && CanTakeBack(applied[n - 1], before) ==> failedNow
    requires fits && undone ==> Project(now.files, roots) == Restored(Project(before.files, roots), applied[n - 1].change.path, base)
    requires fits && undone && applied[n - 1].change.action == Updated ==> applied[n - 1].backup.value !in now.files
    requires (failed ==> failedNow) && (fits && !undone ==> failedNow)
    ensures UndoneFrom(applied, n - 1, base, start, now, roots, ok && undone, fits, failedNow)
  {
    var k := n - 1;
    assert n == k + 1;
    UndoneStepAt(applied, k, base, start, before, now, roots, ok, undone, fits, failed, failedNow);
  }

  lemma UndoingStep(applied: seq<AppliedChange>, n: nat, base: Files, start: Files, before: Files, now: Files, roots: set<Path>,
                    ok: bool, undone: bool)
    requires n < |applied| && AllUndoable(applied, base, start, roots) && Undoing(applied, n + 1, base, start, before, roots, ok)
    requires forall p | p != applied[n].change.path && applied[n].backup != Some(p) :: At(now, p) == At(before, p)
    requires undone ==> Project(now, roots) == Restored(Project(before, roots), applied[n].change.path, base)
    requires undone && applied[n].change.action == Updated ==> applied[n].backup.value !in now
    requires !undone ==> now == before
    ensures Undoing(applied, n, base, start, now, roots, ok && undone)
  {
    assert Undoable(applied[n], base, start, roots);
    RestoreStep(base, ChangesOf(applied), n, Project(before, roots));
    RemainingStep(applied, n, base, before, now, roots);
    forall i | n <= i < |applied| && applied[i].backup.Some?
      ensures Hidden(roots, applied[i].backup.value)
    {
      assert Undoable(applied[i], base, start, roots);
    }
    WorkingFilesStep(applied, n, start, before, now, roots, ok, undone);
  }

  lemma NothingUndone(files: Files, applied: seq<AppliedChange>, base: Files, roots: set<Path>)
    requires AllUndoable(applied, base, files, roots) && Project(files, roots) == Overlaid(base, ChangesOf(applied))
    ensures Undoing(applied, |applied|, base, files, files, roots, true)
  {
    assert ChangesOf(applied)[..|applied|] == ChangesOf(applied);
    AppliedPresent(files, applied, base, roots);
  }

  /** Undoes the applied changes, last first, and goes on after a failure. */
  method UndoFiles(fs: Filesystem, applied: seq<AppliedChange>, ghost base: Files, ghost roots: set<Path>, ghost fits: bool) returns (ok: bool)
    requires Closed(fs.tree)
    requires fits ==> AllUndoable(applied, base, fs.tree.files, roots) && Project(fs.tree.files, roots) == Overlaid(base, ChangesOf(applied))
    modifies fs`tree, fs`faults
    ensures Closed(fs.tree) && fs.faults >= old(fs.faults)
    ensures UndoneFrom(applied, 0, base, old(fs.tree), fs.tree, roots, ok, fits, fs.faults > old(fs.faults))
  {
    ok := true;
    ghost var start := fs.tree;
    var n := |applied|;
    NothingTakenBack(applied, start.files, roots);
    if fits {
      NothingUndone(start.files, applied, base, roots);
    }
    while n > 0
      invariant 0 <= n <= |applied|
      invariant Closed(fs.tree) && fs.faults >= old(fs.faults)
      invariant UndoneFrom(applied, n, base, start, fs.tree, roots, ok, fits, fs.faults > old(fs.faults))
    {
      var undone := UndoNext(fs, applied, n, base, start, roots, ok, fits, fs.faults > old(fs.faults));
      ok := ok && undone;
      n := n - 1;
    }
  }

  lemma AppliedPresent(files: Files, applied: seq<AppliedChange>, base: Files, roots: set<Path>)
    requires AllUndoable(applied, base, files, roots)
    requires Project(files, roots) == Overlaid(base, ChangesOf(applied))
    ensures forall i | 0 <= i < |applied| :: applied[i].change.path in files
  {
    forall i | 0 <= i < |applied|
      ensures applied[i].change.path in files
    {
      assert Undoable(applied[i], base, files, roots);
      assert ChangesOf(applied)[i] in ChangesOf(applied);
      OverlaidAt(base, ChangesOf(applied), applied[i].change);
      ProjectAt(files, roots, applied[i].change.path);
    }
  }

  // ---------------------------------------------------------------- directories made on the way

  function Elements(s: seq<Path>): set<Path> {
    set x | x in s
  }

  /** The directories are new, and each was made when all its ancestors were there. */
  ghost predicate MadeInOrder(made: seq<Path>, before: set<Path>) {
    forall j | 0 <= j < |made| ::
      made[j] !in before && made[j] !in made[..j] && Ancestors(made[j]) <= before + Elements(made[..j])
  }

  lemma MadeInOrderAppend(a: seq<Path>, b: seq<Path>, before: set<Path>)
    requires MadeInOrder(a, before) && MadeInOrder(b, before + Elements(a))
    ensures MadeInOrder(a + b, before)
    ensures Elements(a + b) == Elements(a) + Elements(b)
  {
    var c := a + b;
    forall j | 0 <= j < |c|
      ensures c[j] !in before && c[j] !in c[..j] && Ancestors(c[j]) <= before + Elements(c[..j])
    {
      if j < |a| {
        assert c[..j] == a[..j];
      } else {
        assert c[..j] == a + b[..j - |a|];
        assert Elements(c[..j]) == Elements(a) + Elements(b[..j - |a|]);
      }
    }
  }

  /** The last directory made holds nothing but files that were not there before. */
  lemma LastMadeIsEmpty(t: Tree, floor: Tree, made: seq<Path>, k: nat)
    requires Closed(t) && Closed(floor) && MadeInOrder(made, floor.dirs) && k < |made|
    requires t.dirs == floor.dirs + Elements(made[..k + 1])
    requires t.files.Keys <= floor.files.Keys
    ensures Empty(t, made[k])
  {
    var d := made[k];
    assert d !in floor.dirs && d !in made[..k];
    forall p | p in t.files
      ensures !Ancestor(d, p)
    {
      assert Ancestors(p) <= floor.dirs;
    }
    forall p | p in t.dirs
      ensures !Ancestor(d, p)
    {
      if p in floor.dirs {
        assert Ancestors(p) <= floor.dirs;
      } else {
        var j :| 0 <= j < k + 1 && made[j] == p;
        assert Ancestors(p) <= floor.dirs + Elements(made[..j]);
        assert forall x | x in made[..j] :: x in made[..k];
      }
    }
  }

  lemma LastMadeIsNew(made: seq<Path>, n: nat, before: set<Path>)
    requires MadeInOrder(made, before) && n < |made|
    ensures Elements(made[..n + 1]) == Elements(made[..n]) + {made[n]}
    ensures made[n] !in before + Elements(made[..n])
  {
    assert made[..n + 1] == made[..n] + [made[n]];
  }

  method RemoveCreatedDirectories(fs: Filesystem, made: seq<Path>, ghost floor: Tree) returns (ok: bool)
    requires Closed(fs.tree) && Closed(floor) && MadeInOrder(made, floor.dirs)
    requires fs.tree.dirs == floor.dirs + Elements(made)
    modifies fs`tree, fs`faults
    ensures Closed(fs.tree) && fs.faults >= old(fs.faults) && fs.tree.files == old(fs.tree.files)
    ensures floor.dirs <= fs.tree.dirs <= old(fs.tree.dirs)
    ensures ok ==> fs.tree.dirs == floor.dirs
    ensures !ok && fs.faults == old(fs.faults) ==> !(fs.tree.files.Keys <= floor.files.Keys)
  {
    ok := true;
    var n := |made|;
    assert made[..n] == made;
    ghost var contained := fs.tree.files.Keys <= floor.files.Keys;
    while n > 0
      invariant 0 <= n <= |made|
      invariant Closed(fs.tree) && fs.faults >= old(fs.faults) && fs.tree.files == old(fs.tree.files)
      invariant floor.dirs + Elements(made[..n]) <= fs.tree.dirs <= old(fs.tree.dirs)
      invariant ok ==> fs.tree.dirs == floor.dirs + Elements(made[..n])
      invariant !ok && fs.faults == old(fs.faults) ==> !contained
    {
      n := n - 1;
      LastMadeIsNew(made, n, floor.dirs);
      if ok && contained {
        LastMadeIsEmpty(fs.tree, floor, made, n);
      }
      NotBlocked(fs.tree, made[n]);
      var removed := fs.Remove(made[n]);
      ok := ok && removed;
    }
  }

  /** What undoing needs to find: the changes and nothing else applied, the directories made for them on top of `floor`. */
  ghost predicate RollbackFits(applied: seq<AppliedChange>, made: seq<Path>, base: Files, roots: set<Path>, floor: Tree, t: Tree) {
    AllUndoable(applied, base, t.files, roots) && Project(t.files, roots) == Overlaid(base, ChangesOf(applied)) &&
    Closed(floor) && MadeInOrder(made, floor.dirs) && t.dirs == floor.dirs + Elements(made) &&
    base.Keys <= floor.files.Keys && forall p | p in t.files && Hidden(roots, p) :: p in floor.files
  }

  /** Undoes the applied changes and removes the directories made for them. */
  method RollbackApplied(fs: Filesystem, applied: seq<AppliedChange>, made: seq<Path>,
                         ghost base: Files, ghost roots: set<Path>, ghost floor: Tree, ghost fits: bool)
    returns (ok: bool)
    requires Closed(fs.tree)
    requires if fits then RollbackFits(applied, made, base, roots, floor, fs.tree) else made == []
    modifies fs`tree, fs`faults
    ensures Closed(fs.tree) && fs.faults >= old(fs.faults) && OnlyTheirPaths(applied, old(fs.tree.files), fs.tree.files)
    ensures Takeable(applied, old(fs.tree), roots) && made == [] ==>
              TakingBack(applied, 0, old(fs.tree.files), fs.tree.files, roots, ok) && (!ok ==> fs.faults > old(fs.faults))
    ensures fits ==> Mixture(base, Overlaid(base, ChangesOf(applied)), Project(fs.tree.files, roots)) &&
                     (ok ==> Project(fs.tree.files, roots) == base && fs.tree.dirs == floor.dirs) &&
                     floor.dirs <= fs.tree.dirs <= old(fs.tree.dirs) && (!ok ==> fs.faults > old(fs.faults)) &&
                     WorkingFiles(applied, 0, old(fs.tree.files), fs.tree.files, roots, ok)
  {
    var undone := UndoFiles(fs, applied, base, roots, fits);
    if fits && undone {
      forall p | p in fs.tree.files
        ensures p in floor.files
      {
        if !Hidden(roots, p) {
          ProjectAt(fs.tree.files, roots, p);
          assert p in Project(fs.tree.files, roots);
        }
      }
    }
    var cleared := RemoveCreatedDirectories(fs, made, if fits then floor else fs.tree);
    ok := undone && cleared;
  }
}
