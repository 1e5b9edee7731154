/**
 Committing a prepared change set: stage every new file and a backup of every file it replaces inside the
 target, rename the staged files into place one by one, check them, and clean up; on any failure undo.
 */
module Commit {
  import opened Digests
  import opened Ordering
  import opened Paths
  import opened Model
  import opened Overlay
  import opened Disk
  import opened Copies
  import opened Undo
  import opened Inspect

  // ---------------------------------------------------------------- staging layout

  function FilesRoot(stage: Path): Path { Join(stage, "files") }

  function BackupsRoot(stage: Path): Path { Join(stage, "backups") }

  function StagedPath(stage: Path, p: Path): Path { CopyPath(FilesRoot(stage), p) }

  function BackupPath(stage: Path, p: Path): Path { CopyPath(BackupsRoot(stage), p) }

  lemma StageLayout(stage: Path, p: Path, q: Path)
    ensures Within(stage, StagedPath(stage, p)) && Within(stage, BackupPath(stage, p))
    ensures !Within(FilesRoot(stage), BackupPath(stage, p)) && !Within(BackupsRoot(stage), StagedPath(stage, p))
    ensures StagedPath(stage, p) != BackupPath(stage, q)
    ensures StagedPath(stage, p) == StagedPath(stage, q) ==> p == q
    ensures BackupPath(stage, p) == BackupPath(stage, q) ==> p == q
  {
    JoinWithin(stage, "files");
    JoinWithin(stage, "backups");
    JoinWithin(FilesRoot(stage), p);
    JoinWithin(BackupsRoot(stage), p);
    assert forall x :: StagedPath(stage, x)[|stage| + 1] == 'f' && BackupPath(stage, x)[|stage| + 1] == 'b';
    assert FilesRoot(stage)[|stage| + 1] == 'f' && BackupsRoot(stage)[|stage| + 1] == 'b';
    if StagedPath(stage, p) == StagedPath(stage, q) {
      JoinInjective(FilesRoot(stage), p, q);
    }
    if BackupPath(stage, p) == BackupPath(stage, q) {
      JoinInjective(BackupsRoot(stage), p, q);
    }
  }

  lemma HiddenByStage(stage: Path, p: Path)
    ensures Hidden({stage}, p) <==> Within(stage, p)
  {
    if Within(stage, p) {
      assert stage in {stage};
    }
  }

  // ---------------------------------------------------------------- staging

  /** Only things inside the staging directory have been added. */
  ghost predicate Grown(before: Tree, after: Tree, stage: Path) {
    (forall p | p in before.files :: p in after.files && after.files[p] == before.files[p]) &&
    (forall p | p in after.files && p !in before.files :: Within(stage, p)) &&
    before.dirs <= after.dirs && (forall p | p in after.dirs && p !in before.dirs :: Within(stage, p))
  }

  lemma GrownProject(before: Tree, after: Tree, stage: Path)
    requires Grown(before, after, stage)
    ensures Project(after.files, {stage}) == Project(before.files, {stage})
  {
    forall p
      ensures p in Project(after.files, {stage}) <==> p in Project(before.files, {stage})
    {
      HiddenByStage(stage, p);
    }
  }

  /** A new file at or below the existing staging directory, with its parent directories. */
  lemma NewFileGrown(before: Tree, after: Tree, stage: Path, p: Path)
    requires Closed(before) && stage in before.dirs && Within(stage, p)
    requires before.dirs <= after.dirs <= before.dirs + Ancestors(p)
    requires after.files == before.files || (p !in before.files && p in after.files && after.files == before.files[p := after.files[p]])
    ensures Grown(before, after, stage)
  {
    assert Ancestors(stage) <= before.dirs;
    assert forall d | Ancestor(d, stage) :: d in before.dirs;
    forall d | d in after.dirs && d !in before.dirs
      ensures Within(stage, d)
    {
      AncestorsComparable(stage, d, p);
    }
  }

  /** The staged copy of a change, and the backup of what it replaces, are in place. */
  ghost predicate IsStaged(files: Files, stage: Path, c: FileChange) {
    At(files, StagedPath(stage, c.path)) == Some(c.bytes) && c.sha == Sha256(c.bytes) &&
    (c.action == Updated ==> c.path in files && At(files, BackupPath(stage, c.path)) == Some(files[c.path]))
  }

  lemma StagedGrows(before: Tree, after: Tree, stage: Path, c: FileChange)
    requires Grown(before, after, stage) && IsStaged(before.files, stage, c)
    ensures IsStaged(after.files, stage, c)
  {
  }

  /** Below the staging directory stand only staged files and backups of the paths in `done`. */
  ghost predicate StageShape(t: Tree, stage: Path, done: set<Path>) {
    CopyShape(t, FilesRoot(stage), done) && CopyShape(t, BackupsRoot(stage), done) && OnlyCopies(t, stage)
  }

  ghost predicate OnlyCopies(t: Tree, stage: Path) {
    forall p | Exists(t, p) && Ancestor(stage, p) :: Within(FilesRoot(stage), p) || Within(BackupsRoot(stage), p)
  }

  /** The path neither is nor nests with one of the others. */
  ghost predicate ApartFrom(p: Path, done: set<Path>) {
    p !in done && forall q | q in done :: !Ancestor(p, q) && !Ancestor(q, p)
  }

  lemma RootsFree(t: Tree, stage: Path, root: Path, done: set<Path>)
    requires Closed(t) && stage in t.dirs && CopyShape(t, root, done) && (root == FilesRoot(stage) || root == BackupsRoot(stage))
    ensures forall a | Within(a, root) :: a !in t.files
  {
    JoinWithin(stage, root[|stage| + 1..]);
    assert Ancestors(stage) <= t.dirs;
    forall a | Within(a, root)
      ensures a !in t.files
    {
      if a != root {
        RootAncestor(stage, root, a);
        assert a == stage || a in Ancestors(stage);
      }
    }
  }

  lemma RootAncestor(stage: Path, root: Path, a: Path)
    requires (root == FilesRoot(stage) || root == BackupsRoot(stage)) && Ancestor(a, root)
    ensures Within(a, stage)
  {
    forall i | |stage| < i < |root|
      ensures root[i] != '/'
    {
      if root == FilesRoot(stage) {
        assert root[i] == "files"[i - |stage| - 1];
      } else {
        assert root[i] == "backups"[i - |stage| - 1];
      }
    }
    if |a| <= |stage| {
      assert root[..|a|] == stage[..|a|];
    }
  }

  /** What a change must be like for its staging to succeed. */
  predicate Stageable(files: Files, c: FileChange) {
    c.sha == Sha256(c.bytes) && (c.action == Updated ==> c.path in files)
  }

  /** The new tree after a file was written into the staging directory, if that succeeded. */
  lemma WrittenShape(t: Tree, t': Tree, stage: Path, done: set<Path>, p: Path, backup: bool)
    requires OnlyCopies(t, stage)
    requires CopyShape(t, FilesRoot(stage), if backup then done + {p} else done) && CopyShape(t, BackupsRoot(stage), done)
    requires var path := if backup then BackupPath(stage, p) else StagedPath(stage, p);
             path in t'.files && t' == Tree(t.files[path := t'.files[path]], t.dirs + Ancestors(path))
    ensures OnlyCopies(t', stage) && CopyShape(t', FilesRoot(stage), done + {p})
    ensures CopyShape(t', BackupsRoot(stage), if backup then done + {p} else done)
  {
    StageLayout(stage, p, p);
    var path := if backup then BackupPath(stage, p) else StagedPath(stage, p);
    var root := if backup then BackupsRoot(stage) else FilesRoot(stage);
    JoinWithin(root, p);
    if backup {
      CopyShapeElsewhere(t, t', FilesRoot(stage), done + {p}, path);
      CopyShapeStep(t, t', BackupsRoot(stage), done, p);
    } else {
      CopyShapeStep(t, t', FilesRoot(stage), done, p);
      CopyShapeElsewhere(t, t', BackupsRoot(stage), done, path);
    }
    forall d | Exists(t', d) && Ancestor(stage, d)
      ensures Within(FilesRoot(stage), d) || Within(BackupsRoot(stage), d)
    {
      if Within(d, path) {
        AncestorsComparable(root, d, path);
        if Ancestor(d, root) {
          RootAncestor(stage, root, d);
        }
      }
    }
  }

  /** Writes one file into the staging directory and tells whether it reads back with the announced digest. */
  method WriteStaged(fs: Filesystem, stage: Path, c: FileChange, ghost done: set<Path>) returns (ok: bool)
    requires Closed(fs.tree) && stage in fs.tree.dirs
    modifies fs`tree, fs`faults
    ensures Closed(fs.tree) && fs.faults >= old(fs.faults)
    ensures Grown(old(fs.tree), fs.tree, stage)
    ensures ok ==> At(fs.tree.files, StagedPath(stage, c.path)) == Some(c.bytes) && c.sha == Sha256(c.bytes)
    ensures ok && StageShape(old(fs.tree), stage, done) ==>
              OnlyCopies(fs.tree, stage) && CopyShape(fs.tree, FilesRoot(stage), done + {c.path}) && CopyShape(fs.tree, BackupsRoot(stage), done)
    ensures !ok && fs.faults == old(fs.faults) && StageShape(old(fs.tree), stage, done) && ApartFrom(c.path, done) ==>
              c.sha != Sha256(c.bytes)
  {
    var staged := StagedPath(stage, c.path);
    StageLayout(stage, c.path, c.path);
    ghost var t0 := fs.tree;
    ghost var shaped := StageShape(t0, stage, done);
    if shaped && ApartFrom(c.path, done) {
      RootsFree(t0, stage, FilesRoot(stage), done);
      CopyFree(t0, FilesRoot(stage), done, c.path);
    }
    ok := WriteNewFile(fs, staged, c.bytes);
    NewFileGrown(t0, fs.tree, stage, staged);
    if !ok {
      return;
    }
    if shaped {
      WrittenShape(t0, fs.tree, stage, done, c.path, false);
    }
    var written := fs.ReadFile(staged);
    ok := written.Ok? && Sha256(written.value) == c.sha;
  }

  /** Copies the file a change replaces into the staging directory. */
  method WriteBackup(fs: Filesystem, stage: Path, c: FileChange, ghost done: set<Path>) returns (ok: bool)
    requires Closed(fs.tree) && stage in fs.tree.dirs
    modifies fs`tree, fs`faults
    ensures Closed(fs.tree) && fs.faults >= old(fs.faults)
    ensures Grown(old(fs.tree), fs.tree, stage)
    ensures ok ==> c.path in fs.tree.files && At(fs.tree.files, BackupPath(stage, c.path)) == Some(fs.tree.files[c.path])
    ensures var shaped := OnlyCopies(old(fs.tree), stage) && CopyShape(old(fs.tree), FilesRoot(stage), done + {c.path}) &&
                          CopyShape(old(fs.tree), BackupsRoot(stage), done);
            (ok && shaped ==> StageShape(fs.tree, stage, done + {c.path})) &&
            (!ok && fs.faults == old(fs.faults) && shaped && ApartFrom(c.path, done) ==> c.path !in old(fs.tree.files))
  {
    var backup := BackupPath(stage, c.path);
    StageLayout(stage, c.path, c.path);
    var readable := fs.TouchMode(c.path);
    if !readable || c.path !in fs.tree.files {
      return false;
    }
    var content := fs.ReadFile(c.path);
    if content.Err? {
      return false;
    }
    ghost var t0 := fs.tree;
    ghost var shaped := OnlyCopies(t0, stage) && CopyShape(t0, FilesRoot(stage), done + {c.path}) && CopyShape(t0, BackupsRoot(stage), done);
    if shaped && ApartFrom(c.path, done) {
      RootsFree(t0, stage, BackupsRoot(stage), done);
      CopyFree(t0, BackupsRoot(stage), done, c.path);
    }
    ok := WriteNewFile(fs, backup, content.value);
    NewFileGrown(t0, fs.tree, stage, backup);
    if ok && shaped {
      WrittenShape(t0, fs.tree, stage, done, c.path, true);
    }
  }

  method StageOne(fs: Filesystem, stage: Path, c: FileChange, ghost done: set<Path>) returns (ok: bool)
    requires Closed(fs.tree) && stage in fs.tree.dirs
    modifies fs`tree, fs`faults
    ensures Closed(fs.tree) && fs.faults >= old(fs.faults)
    ensures Grown(old(fs.tree), fs.tree, stage)
    ensures ok ==> IsStaged(fs.tree.files, stage, c)
    ensures ok && StageShape(old(fs.tree), stage, done) ==> StageShape(fs.tree, stage, done + {c.path})
    ensures !ok && fs.faults == old(fs.faults) && StageShape(old(fs.tree), stage, done) && ApartFrom(c.path, done) ==>
              !Stageable(old(fs.tree.files), c)
  {
    ghost var t0 := fs.tree;
    ok := WriteStaged(fs, stage, c, done);
    if !ok {
      return;
    }
    if c.action == Updated {
      ghost var t1 := fs.tree;
      ok := WriteBackup(fs, stage, c, done);
      GrownTransitive(t0, t1, fs.tree, stage);
    } else if CopyShape(fs.tree, BackupsRoot(stage), done) {
      CopyShapeMore(fs.tree, BackupsRoot(stage), done, done + {c.path});
    }
  }

  lemma GrownTransitive(a: Tree, b: Tree, c: Tree, root: Path)
    requires Grown(a, b, root) && Grown(b, c, root)
    ensures Grown(a, c, root)
  {
  }

  datatype JournalItem = JournalItem(path: Path, staged: Path, backup: Option<Path>)

  function ItemFor(stage: Path, c: FileChange): JournalItem {
    JournalItem(c.path, StagedPath(stage, c.path), if c.action == Updated then Some(BackupPath(stage, c.path)) else None)
  }

  function ItemsFor(stage: Path, changes: seq<FileChange>): seq<JournalItem> {
    seq(|changes|, i requires 0 <= i < |changes| => ItemFor(stage, changes[i]))
  }

  lemma ItemsAppend(stage: Path, changes: seq<FileChange>, c: FileChange)
    ensures ItemsFor(stage, changes + [c]) == ItemsFor(stage, changes) + [ItemFor(stage, c)]
  {
  }

  ghost predicate AllStaged(files: Files, stage: Path, changes: seq<FileChange>) {
    forall c | c in changes :: IsStaged(files, stage, c)
  }

  function PathSet(changes: seq<FileChange>): set<Path> {
    set c | c in changes :: c.path
  }

  lemma EffectivePrefix(changes: seq<FileChange>, i: nat)
    requires i < |changes|
    ensures Effective(changes[..i + 1]) == if changes[i].action == Unchanged then Effective(changes[..i]) else Effective(changes[..i]) + [changes[i]]
    ensures forall c | c in changes[..i] :: c in changes
  {
    assert changes[..i + 1][..i] == changes[..i];
  }

  /** The change to stage next is apart from those already staged. */
  lemma NextApart(changes: seq<FileChange>, i: nat)
    requires DistinctKeys(changes, ChangePath) && Unnested(PathSet(Effective(changes))) && i < |changes| && changes[i].action != Unchanged
    ensures ApartFrom(changes[i].path, PathSet(Effective(changes[..i])))
  {
    NotInPrefix(changes, i, ChangePath);
    EffectivePrefix(changes, i);
    assert changes[i] in Effective(changes) && forall c | c in changes[..i] :: ChangePath(c) == c.path;
    forall q | q in PathSet(Effective(changes[..i]))
      ensures q in PathSet(Effective(changes)) && q != changes[i].path
    {
      var c :| c in Effective(changes[..i]) && c.path == q;
      assert c in changes[..i] && c in Effective(changes);
    }
  }

  /** Everything a staging needs besides working operations. */
  ghost predicate AllStageable(files: Files, changes: seq<FileChange>) {
    DistinctKeys(changes, ChangePath) && Unnested(PathSet(Effective(changes))) && forall c | c in Effective(changes) :: Stageable(files, c)
  }

  /** The changes that write nothing. */
  function Kept(changes: seq<FileChange>): (r: seq<FileChange>)
    ensures forall c :: c in r <==> c in changes && c.action == Unchanged
  {
    if changes == [] then []
    else
      var rest, last := Kept(changes[..|changes| - 1]), changes[|changes| - 1];
      assert changes == changes[..|changes| - 1] + [last];
      if last.action == Unchanged then rest + [last] else rest
  }

  predicate KeptFrom(kept: seq<FileChange>, changes: seq<FileChange>) {
    forall c | c in kept :: c in changes && c.action == Unchanged
  }

  /** Kept and effective changes together are all of them. */
  lemma {:induction false} KeptAndEffective(changes: seq<FileChange>)
    ensures multiset(Kept(changes) + Effective(changes)) == multiset(changes)
  {
    if changes != [] {
      var rest, last := changes[..|changes| - 1], changes[|changes| - 1];
      KeptAndEffective(rest);
      assert changes == rest + [last];
      if last.action == Unchanged {
        InsertedOnce(Kept(rest), Effective(rest), last);
      } else {
        assert Kept(rest) + (Effective(rest) + [last]) == Kept(rest) + Effective(rest) + [last];
      }
    }
  }

  lemma InsertedOnce(a: seq<FileChange>, b: seq<FileChange>, c: FileChange)
    ensures multiset(a + [c] + b) == multiset(a + b) + multiset{c}
  {
  }

  /** Stages every change that writes something, in order. */
  method StageChanges(fs: Filesystem, stage: Path, changes: seq<FileChange>)
    returns (items: seq<JournalItem>, kept: seq<FileChange>, failure: Option<Errors>)
    requires Closed(fs.tree) && stage in fs.tree.dirs
    modifies fs`tree, fs`faults
    ensures Closed(fs.tree) && fs.faults >= old(fs.faults)
    ensures Grown(old(fs.tree), fs.tree, stage)
    ensures failure.Some? ==> failure.value == {Cancelled} || failure.value == {CommitFailed}
    ensures KeptFrom(kept, changes) && (failure.None? ==> kept == Kept(changes))
    ensures failure.None? ==> AllStaged(fs.tree.files, stage, Effective(changes)) && items == ItemsFor(stage, Effective(changes))
    ensures failure.None? && StageShape(old(fs.tree), stage, {}) ==> StageShape(fs.tree, stage, PathSet(Effective(changes)))
    ensures failure.Some? && fs.faults == old(fs.faults) && StageShape(old(fs.tree), stage, {}) ==> !AllStageable(old(fs.tree.files), changes)
  {
    items, kept := [], [];
    assert changes[..0] == [] && PathSet([]) == {};
    ghost var shaped := StageShape(fs.tree, stage, {});
    for i := 0 to |changes|
      invariant Closed(fs.tree) && fs.faults >= old(fs.faults)
      invariant Grown(old(fs.tree), fs.tree, stage)
      invariant AllStaged(fs.tree.files, stage, Effective(changes[..i]))
      invariant items == ItemsFor(stage, Effective(changes[..i])) && kept == Kept(changes[..i])
      invariant shaped ==> StageShape(fs.tree, stage, PathSet(Effective(changes[..i])))
    {
      var c := changes[i];
      EffectivePrefix(changes, i);
      assert changes[..i + 1][..i] == changes[..i];
      if c.action == Unchanged {
        kept := kept + [c];
      } else {
        var stopped := fs.Interrupted();
        if stopped {
          return items, kept, Some({Cancelled});
        }
        var ok := StageNextChange(fs, stage, changes, i, old(fs.tree));
        if !ok {
          return items, kept, Some({CommitFailed});
        }
        ItemsAppend(stage, Effective(changes[..i]), c);
        items := items + [ItemFor(stage, c)];
      }
    }
    assert changes[..|changes|] == changes;
    return items, kept, None;
  }

  /** Stages the next change beside those already staged. */
  method StageNextChange(fs: Filesystem, stage: Path, changes: seq<FileChange>, i: nat, ghost t0: Tree) returns (ok: bool)
    requires Closed(fs.tree) && stage in fs.tree.dirs && i < |changes| && changes[i].action != Unchanged
    requires Grown(t0, fs.tree, stage) && AllStaged(fs.tree.files, stage, Effective(changes[..i]))
    modifies fs`tree, fs`faults
    ensures Closed(fs.tree) && fs.faults >= old(fs.faults) && stage in fs.tree.dirs
    ensures Grown(t0, fs.tree, stage)
    ensures ok ==> AllStaged(fs.tree.files, stage, Effective(changes[..i]) + [changes[i]])
    ensures ok && StageShape(old(fs.tree), stage, PathSet(Effective(changes[..i]))) ==>
              StageShape(fs.tree, stage, PathSet(Effective(changes[..i]) + [changes[i]]))
    ensures !ok && fs.faults == old(fs.faults) && StageShape(old(fs.tree), stage, PathSet(Effective(changes[..i]))) ==>
              !AllStageable(t0.files, changes)
  {
    ghost var done, before := PathSet(Effective(changes[..i])), fs.tree;
    if AllStageable(t0.files, changes) {
      NextApart(changes, i);
      assert changes[i] in Effective(changes) && Stageable(before.files, changes[i]);
    }
    ok := StageOne(fs, stage, changes[i], done);
    GrownTransitive(t0, before, fs.tree, stage);
    if ok {
      forall d | d in Effective(changes[..i])
        ensures IsStaged(fs.tree.files, stage, d)
      {
        StagedGrows(before, fs.tree, stage, d);
      }
    }
    assert PathSet(Effective(changes[..i]) + [changes[i]]) == done + {changes[i].path};
  }

  // ---------------------------------------------------------------- applying

  /** The parent directories of a target, made where missing. */
  method EnsureSafeTargetParent(fs: Filesystem, target: Path) returns (made: seq<Path>, ok: bool)
    requires Closed(fs.tree)
    modifies fs`tree, fs`faults
    ensures Closed(fs.tree) && fs.faults >= old(fs.faults) && fs.tree.files == old(fs.tree.files)
    ensures fs.tree.dirs == old(fs.tree.dirs) + Elements(made) && MadeInOrder(made, old(fs.tree.dirs))
    ensures forall d | d in made :: Ancestor(d, target)
    ensures ok ==> ParentsExist(fs.tree, target)
    ensures !ok && fs.faults == old(fs.faults) ==> Blocked(fs.tree, target)
  {
    made := [];
    ChainMembers(target);
    for i := 0 to |target|
      invariant Closed(fs.tree) && fs.faults >= old(fs.faults) && fs.tree.files == old(fs.tree.files)
      invariant fs.tree.dirs == old(fs.tree.dirs) + Elements(made) && MadeInOrder(made, old(fs.tree.dirs))
      invariant Chain(target, i) <= fs.tree.dirs && forall d | d in made :: Ancestor(d, target)
    {
      ChainStep(target, i);
      if target[i] == '/' {
        var current := target[..i];
        assert current in Chain(target, i + 1);
        AncestorsInChain(target, i, |target|);
        var entry := fs.Lstat(current);
        if entry == IsFile || entry == Unreadable {
          BlockedInChain(fs.tree, target, i, |target|);
          return made, false;
        }
        if entry == Missing {
          var created := fs.Mkdir(current);
          if !created {
            return made, false;
          }
          assert MadeInOrder([current], old(fs.tree.dirs) + Elements(made));
          MadeInOrderAppend(made, [current], old(fs.tree.dirs));
          made := made + [current];
        }
      }
    }
    return made, true;
  }

  predicate TargetAsPrepared(t: Tree, c: FileChange) {
    if c.action == Created then !Exists(t, c.path) else c.path in t.files && Sha256(t.files[c.path]) == c.previousSha
  }

  /** The target is still what the change was prepared against. */
  method ValidateTargetForChange(fs: Filesystem, c: FileChange) returns (ok: bool)
    requires Closed(fs.tree)
    modifies fs`faults
    ensures fs.faults >= old(fs.faults)
    ensures ok && c.action == Created ==> !Exists(fs.tree, c.path)
    ensures ok && c.action != Created ==> c.path in fs.tree.files && Sha256(fs.tree.files[c.path]) == c.previousSha
    ensures !ok && fs.faults == old(fs.faults) ==> !TargetAsPrepared(fs.tree, c) || Blocked(fs.tree, c.path)
  {
    var entry := fs.Lstat(c.path);
    if c.action == Created {
      return entry == Missing;
    }
    if entry != IsFile {
      return false;
    }
    var content := fs.ReadFile(c.path);
    return content.Ok? && Sha256(content.value) == c.previousSha;
  }

  function ChangeByPath(changes: seq<FileChange>, p: Path): FileChange {
    if changes == [] then FileChange("", Custom, Unset, "", NoDigest, NoDigest, NoDigest)
    else if changes[0].path == p then changes[0]
    else ChangeByPath(changes[1..], p)
  }

  lemma {:induction false} ChangeByPathFinds(changes: seq<FileChange>, c: FileChange)
    requires DistinctKeys(changes, ChangePath) && c in changes
    ensures ChangeByPath(changes, c.path) == c
  {
    if changes[0] != c {
      var k :| 0 < k < |changes| && changes[k] == c;
      assert ChangePath(changes[0]) != ChangePath(changes[k]);
      assert changes[1..][k - 1] == c;
      ChangeByPathFinds(changes[1..], c);
    }
  }

  /** What moving a staged file into place needs besides working operations. */
  ghost predicate ReadyToApply(t: Tree, c: FileChange, item: JournalItem) {
    TargetAsPrepared(t, c) && !Blocked(t, c.path) && item.staged in t.files && (item.backup.Some? ==> c.action != Created)
  }

  /** Moves one staged file into place. */
  method ApplyOne(fs: Filesystem, c: FileChange, item: JournalItem) returns (made: seq<Path>, ok: bool)
    requires Closed(fs.tree)
    modifies fs`tree, fs`faults
    ensures Closed(fs.tree) && fs.faults >= old(fs.faults)
    ensures fs.tree.dirs == old(fs.tree.dirs) + Elements(made) && MadeInOrder(made, old(fs.tree.dirs))
    ensures forall d | d in made :: Ancestor(d, c.path)
    ensures !ok ==> fs.tree.files == old(fs.tree.files)
    ensures ok ==> item.staged in old(fs.tree.files) &&
                   fs.tree.files == (old(fs.tree.files) - {item.staged})[c.path := old(fs.tree.files)[item.staged]]
    ensures ok && c.action == Created ==> c.path !in old(fs.tree.files)
    ensures ok && c.action != Created ==> c.path in old(fs.tree.files) && Sha256(old(fs.tree.files)[c.path]) == c.previousSha
    ensures !ok && fs.faults == old(fs.faults) ==> !ReadyToApply(old(fs.tree), c, item)
  {
    made, ok := EnsureSafeTargetParent(fs, c.path);
    if !ok {
      return;
    }
    ok := ValidateTargetForChange(fs, c);
    if !ok {
      return;
    }
    if item.backup.Some? {
      ok := fs.TouchMode(c.path);
      if !ok {
        return;
      }
    }
    ok := fs.TouchMode(item.staged);
    if !ok {
      return;
    }
    ok := fs.Rename(item.staged, c.path);
  }

  function AppliedFor(stage: Path, c: FileChange): AppliedChange {
    AppliedChange(c, ItemFor(stage, c).backup)
  }

  function AllApplied(stage: Path, changes: seq<FileChange>): seq<AppliedChange> {
    seq(|changes|, i requires 0 <= i < |changes| => AppliedFor(stage, changes[i]))
  }

  /** Changes that can be committed through a staging directory. */
  ghost predicate Committable(changes: seq<FileChange>, stage: Path) {
    DistinctKeys(changes, ChangePath) &&
    forall c | c in changes :: (c.action == Created || c.action == Updated) && !Overlap(c.path, stage)
  }

  /** The first `n` changes are in place, the others are still staged, every backup is there. */
  ghost predicate Applying(files: Files, stage: Path, changes: seq<FileChange>, n: nat, base: Files, floor: Files)
    requires n <= |changes|
  {
    Project(files, {stage}) == Overlaid(base, changes[..n]) &&
    (forall j | n <= j < |changes| :: At(files, StagedPath(stage, changes[j].path)) == Some(changes[j].bytes)) &&
    (forall j | 0 <= j < |changes| && changes[j].action == Updated ::
       changes[j].path in base && At(files, BackupPath(stage, changes[j].path)) == Some(base[changes[j].path])) &&
    (forall j | 0 <= j < n && changes[j].action == Created :: changes[j].path !in base) &&
    (forall p | p in files && Within(stage, p) :: p in floor)
  }

  lemma NotWithinStage(changes: seq<FileChange>, stage: Path, j: nat)
    requires Committable(changes, stage) && j < |changes|
    ensures !Within(stage, changes[j].path) && !Hidden({stage}, changes[j].path)
  {
    assert changes[j] in changes;
  }

  /** Before change `n`, its target holds what it held at the beginning. */
  lemma TargetUntouched(files: Files, stage: Path, changes: seq<FileChange>, n: nat, base: Files, floor: Files)
    requires Committable(changes, stage) && n < |changes| && Applying(files, stage, changes, n, base, floor)
    ensures At(files, changes[n].path) == At(base, changes[n].path)
  {
    NotWithinStage(changes, stage, n);
    ProjectAt(files, {stage}, changes[n].path);
    forall c | c in changes[..n]
      ensures c.path != changes[n].path
    {
      var k :| 0 <= k < n && changes[k] == c;
      assert ChangePath(changes[k]) != ChangePath(changes[n]);
    }
    OverlaidElsewhere(base, changes[..n], changes[n].path);
  }

  lemma ApplyingStep(files: Files, after: Files, stage: Path, changes: seq<FileChange>, n: nat, base: Files, floor: Files)
    requires Committable(changes, stage) && n < |changes| && Applying(files, stage, changes, n, base, floor)
    requires after == (files - {StagedPath(stage, changes[n].path)})[changes[n].path := changes[n].bytes]
    requires changes[n].action == Created ==> changes[n].path !in base
    ensures Applying(after, stage, changes, n + 1, base, floor)
  {
    var c := changes[n];
    var staged := StagedPath(stage, c.path);
    NotWithinStage(changes, stage, n);
    StageLayout(stage, c.path, c.path);
    HiddenByStage(stage, staged);
    assert files[staged] == c.bytes;
    ProjectMove(files, {stage}, staged, c.path);
    assert changes[..n + 1][..n] == changes[..n];
    forall j | n < j < |changes|
      ensures At(after, StagedPath(stage, changes[j].path)) == Some(changes[j].bytes)
    {
      assert ChangePath(changes[n]) != ChangePath(changes[j]);
      StageLayout(stage, changes[j].path, c.path);
    }
    forall j | 0 <= j < |changes| && changes[j].action == Updated
      ensures At(after, BackupPath(stage, changes[j].path)) == Some(base[changes[j].path])
    {
      StageLayout(stage, changes[j].path, c.path);
      StageLayout(stage, c.path, changes[j].path);
    }
  }

  /** Whatever has been applied can be undone. */
  lemma AppliedUndoable(files: Files, stage: Path, changes: seq<FileChange>, n: nat, base: Files, floor: Files)
    requires Committable(changes, stage) && n <= |changes| && Applying(files, stage, changes, n, base, floor)
    ensures AllUndoable(AllApplied(stage, changes[..n]), base, files, {stage})
    ensures ChangesOf(AllApplied(stage, changes[..n])) == changes[..n]
  {
    var applied := AllApplied(stage, changes[..n]);
    assert ChangesOf(applied) == changes[..n];
    forall i | 0 <= i < n
      ensures Undoable(applied[i], base, files, {stage})
    {
      assert changes[i] in changes;
      NotWithinStage(changes, stage, i);
      StageLayout(stage, changes[i].path, changes[i].path);
      HiddenByStage(stage, BackupPath(stage, changes[i].path));
    }
    forall i, j | 0 <= i < j < n && applied[i].backup.Some?
      ensures applied[i].backup != applied[j].backup
    {
      assert ChangePath(changes[i]) != ChangePath(changes[j]);
      StageLayout(stage, changes[i].path, changes[j].path);
    }
    forall i, j | 0 <= i < j < n
      ensures ChangePath(changes[..n][i]) != ChangePath(changes[..n][j])
    {
      assert ChangePath(changes[i]) != ChangePath(changes[j]);
    }
  }

  /** The directory lies on the way to a changed file. */
  ghost predicate LeadsToChange(changes: seq<FileChange>, d: Path) {
    exists c :: c in changes && Ancestor(d, c.path)
  }

  ghost predicate AllLead(changes: seq<FileChange>, made: seq<Path>) {
    forall d | d in made :: LeadsToChange(changes, d)
  }

  lemma AllLeadAppend(changes: seq<FileChange>, a: seq<Path>, b: seq<Path>)
    requires AllLead(changes, a) && AllLead(changes, b)
    ensures AllLead(changes, a + b)
  {
  }

  /** What a change needs to find in the target. */
  ghost predicate FitsTarget(t: Tree, c: FileChange) {
    TargetAsPrepared(t, c) && !Blocked(t, c.path)
  }

  ghost predicate AllFit(t: Tree, todo: seq<FileChange>) {
    forall c | c in todo :: FitsTarget(t, c)
  }

  ghost predicate Appliable(t: Tree, c: FileChange) {
    c.sha == Sha256(c.bytes) && FitsTarget(t, c)
  }

  lemma AppliableFits(t: Tree, todo: seq<FileChange>)
    requires AllAppliable(t, todo)
    ensures AllFit(t, todo)
  {
    forall c | c in todo
      ensures FitsTarget(t, c)
    {
      assert Appliable(t, c);
    }
  }

  ghost predicate AllAppliable(t: Tree, todo: seq<FileChange>) {
    Unnested(PathSet(todo)) && forall c | c in todo :: Appliable(t, c)
  }

  /** If all changes fitted the target to begin with, the next one still does. */
  lemma TargetReady(t: Tree, floor: Tree, stage: Path, todo: seq<FileChange>, n: nat, base: Files)
    requires Committable(todo, stage) && n < |todo| && Applying(t.files, stage, todo, n, base, floor.files)
    requires base == Project(floor.files, {stage}) && AllAppliable(floor, todo)
    requires forall d | d in t.dirs :: d in floor.dirs || LeadsToChange(todo, d)
    ensures ReadyToApply(t, todo[n], ItemFor(stage, todo[n]))
  {
    var c := todo[n];
    assert c in todo && c.path in PathSet(todo) && Appliable(floor, c);
    TargetUntouched(t.files, stage, todo, n, base, floor.files);
    NotWithinStage(todo, stage, n);
    ProjectAt(floor.files, {stage}, c.path);
    forall d | d in todo
      ensures !Ancestor(c.path, d.path)
    {
      assert d.path in PathSet(todo);
    }
    forall a | Ancestor(a, c.path)
      ensures a !in t.files
    {
      AncestorFree(t, floor, stage, todo, n, base, a);
    }
  }

  lemma AncestorFree(t: Tree, floor: Tree, stage: Path, todo: seq<FileChange>, n: nat, base: Files, a: Path)
    requires Committable(todo, stage) && n < |todo| && Applying(t.files, stage, todo, n, base, floor.files)
    requires base == Project(floor.files, {stage}) && AllAppliable(floor, todo) && Ancestor(a, todo[n].path)
    ensures a !in t.files
  {
    var c := todo[n];
    assert c in todo && c.path in PathSet(todo) && Appliable(floor, c);
    NotWithinStage(todo, stage, n);
    if Within(stage, a) {
      AncestorTransitive(stage, a, c.path);
    }
    HiddenByStage(stage, a);
    ProjectAt(t.files, {stage}, a);
    ProjectAt(floor.files, {stage}, a);
    forall d | d in todo[..n]
      ensures d.path != a
    {
      assert d in todo && d.path in PathSet(todo);
    }
    OverlaidElsewhere(base, todo[..n], a);
  }

  /** Moves the next staged file into place; on failure the files are as they were. */
  method ApplyNext(fs: Filesystem, stage: Path, changes: seq<FileChange>, todo: seq<FileChange>, item: JournalItem, n: nat,
                   ghost base: Files, ghost floor: Tree, ghost fits: bool)
    returns (made: seq<Path>, ok: bool)
    requires Closed(fs.tree) && DistinctKeys(changes, ChangePath) && todo == Effective(changes) && Committable(todo, stage)
    requires n < |todo| && item == ItemFor(stage, todo[n])
    requires Applying(fs.tree.files, stage, todo, n, base, floor.files)
    requires forall d | d in fs.tree.dirs :: d in floor.dirs || LeadsToChange(todo, d)
    requires fits ==> base == Project(floor.files, {stage}) && AllAppliable(floor, todo)
    modifies fs`tree, fs`faults
    ensures Closed(fs.tree) && fs.faults >= old(fs.faults)
    ensures fs.tree.dirs == old(fs.tree.dirs) + Elements(made) && MadeInOrder(made, old(fs.tree.dirs))
    ensures AllLead(todo, made)
    ensures Applying(fs.tree.files, stage, todo, if ok then n + 1 else n, base, floor.files)
    ensures !ok && fits ==> fs.faults > old(fs.faults)
  {
    made := [];
    var stopped := fs.Interrupted();  // cancelled, or stopped by the hook before the replacement
    if stopped {
      assert Elements(made) == {};
      return made, false;
    }
    FoundInJournal(changes, todo, stage, n);
    var c := ChangeByPath(changes, item.path);
    ghost var files := fs.tree.files;
    TargetUntouched(files, stage, todo, n, base, floor.files);
    if fits {
      TargetReady(fs.tree, floor, stage, todo, n, base);
    }
    made, ok := ApplyOne(fs, c, item);
    if ok {
      assert files[item.staged] == c.bytes;
      ApplyingStep(files, fs.tree.files, stage, todo, n, base, floor.files);
    }
  }

  /** One step of the loop, which also adds to the directories made so far. */
  method ApplyMore(fs: Filesystem, stage: Path, changes: seq<FileChange>, todo: seq<FileChange>, item: JournalItem, n: nat, before: seq<Path>,
                   ghost base: Files, ghost floor: Tree, ghost fits: bool)
    returns (made: seq<Path>, ok: bool)
    requires Closed(fs.tree) && DistinctKeys(changes, ChangePath) && todo == Effective(changes) && Committable(todo, stage)
    requires n < |todo| && item == ItemFor(stage, todo[n])
    requires Applying(fs.tree.files, stage, todo, n, base, floor.files)
    requires fs.tree.dirs == floor.dirs + Elements(before) && MadeInOrder(before, floor.dirs) && AllLead(todo, before)
    requires fits ==> base == Project(floor.files, {stage}) && AllAppliable(floor, todo)
    modifies fs`tree, fs`faults
    ensures Closed(fs.tree) && fs.faults >= old(fs.faults)
    ensures fs.tree.dirs == floor.dirs + Elements(made) && MadeInOrder(made, floor.dirs) && AllLead(todo, made)
    ensures Applying(fs.tree.files, stage, todo, if ok then n + 1 else n, base, floor.files)
    ensures !ok && fits ==> fs.faults > old(fs.faults)
  {
    var created;
    created, ok := ApplyNext(fs, stage, changes, todo, item, n, base, floor, fits);
    MadeInOrderAppend(before, created, floor.dirs);
    AllLeadAppend(todo, before, created);
    made := before + created;
  }

  /** Renames the staged files into place, one by one, until something fails. */
  method ApplyAll(fs: Filesystem, stage: Path, changes: seq<FileChange>, todo: seq<FileChange>, items: seq<JournalItem>,
                  ghost base: Files, ghost floor: Tree, ghost fits: bool)
    returns (applied: seq<AppliedChange>, made: seq<Path>, done: bool)
    requires Closed(fs.tree) && fs.tree == floor
    requires DistinctKeys(changes, ChangePath) && todo == Effective(changes)
    requires Committable(todo, stage) && items == ItemsFor(stage, todo)
    requires Applying(fs.tree.files, stage, todo, 0, base, floor.files)
    requires fits ==> AllAppliable(floor, todo)
    modifies fs`tree, fs`faults
    ensures Closed(fs.tree) && fs.faults >= old(fs.faults)
    ensures fs.tree.dirs == floor.dirs + Elements(made) && MadeInOrder(made, floor.dirs)
    ensures AllLead(todo, made)
    ensures |applied| <= |todo| && applied == AllApplied(stage, todo[..|applied|])
    ensures Applying(fs.tree.files, stage, todo, |applied|, base, floor.files)
    ensures done ==> |applied| == |todo|
    ensures !done && fits ==> fs.faults > old(fs.faults)
  {
    applied, made := [], [];
    assert Elements(made) == {};
    assert todo[..0] == [] && base == Project(floor.files, {stage});
    for n := 0 to |items|
      invariant Closed(fs.tree) && fs.faults >= old(fs.faults)
      invariant fs.tree.dirs == floor.dirs + Elements(made) && MadeInOrder(made, floor.dirs)
      invariant AllLead(todo, made)
      invariant |applied| == n && applied == AllApplied(stage, todo[..n])
      invariant Applying(fs.tree.files, stage, todo, n, base, floor.files)
    {
      var ok;
      made, ok := ApplyMore(fs, stage, changes, todo, items[n], n, made, base, floor, fits);
      if !ok {
        return applied, made, false;
      }
      AllAppliedStep(stage, todo, n);
      applied := applied + [AppliedFor(stage, todo[n])];
    }
    return applied, made, true;
  }

  lemma FoundInJournal(changes: seq<FileChange>, todo: seq<FileChange>, stage: Path, n: nat)
    requires DistinctKeys(changes, ChangePath) && todo == Effective(changes) && n < |todo|
    ensures todo[n] in todo && ChangeByPath(changes, ItemFor(stage, todo[n]).path) == todo[n]
  {
    assert todo[n] in todo;
    ChangeByPathFinds(changes, todo[n]);
  }

  lemma AllAppliedStep(stage: Path, todo: seq<FileChange>, n: nat)
    requires n < |todo|
    ensures AllApplied(stage, todo[..n + 1]) == AllApplied(stage, todo[..n]) + [AppliedFor(stage, todo[n])]
  {
  }

  // ---------------------------------------------------------------- exits

  /** The files outside the staging directory are those of `files`. */
  predicate SameOutside(stage: Path, files: Files, now: Files) {
    Project(now, {stage}) == Project(files, {stage})
  }

  /** Outside the staging directory every path holds its old or its new content. */
  ghost predicate MixedOutside(stage: Path, before: Files, after: Files, now: Files) {
    Mixture(Project(before, {stage}), Project(after, {stage}), Project(now, {stage}))
  }

  /** No directory is lost, and new ones lie on the way to, or inside, the staging directory. */
  ghost predicate SameDirectories(stage: Path, before: set<Path>, now: set<Path>) {
    before <= now && forall d | d in now && d !in before :: Within(d, stage) || Within(stage, d)
  }

  /** Files inside an already existing staging directory are never touched. */
  predicate InsideKept(stage: Path, before: Files, now: Files) {
    forall p | p in before && Within(stage, p) :: At(now, p) == Some(before[p])
  }

  predicate NothingInside(stage: Path, now: Files) {
    forall p | p in now :: !Within(stage, p)
  }

  lemma NothingInsideProject(stage: Path, files: Files)
    requires NothingInside(stage, files)
    ensures Project(files, {stage}) == files
  {
    forall p | p in files
      ensures !Hidden({stage}, p)
    {
      HiddenByStage(stage, p);
    }
    ProjectAll(files, {stage});
  }

  lemma PrunedProject(before: Tree, after: Tree, stage: Path)
    requires PartlyPruned(before, after, stage)
    ensures Project(after.files, {stage}) == Project(before.files, {stage})
    ensures after == Pruned(before, stage) ==> NothingInside(stage, after.files)
  {
    forall p
      ensures p in Project(after.files, {stage}) <==> p in Project(before.files, {stage})
    {
      HiddenByStage(stage, p);
    }
  }

  lemma OverlaidOutside(stage: Path, base: Files, todo: seq<FileChange>)
    requires Committable(todo, stage) && NothingInside(stage, base)
    ensures NothingInside(stage, Overlaid(base, todo))
  {
    forall p | p in Overlaid(base, todo)
      ensures !Within(stage, p)
    {
      if !ChangesPath(todo, p) {
        OverlaidElsewhere(base, todo, p);
      }
    }
  }

  lemma MixtureReflexive(before: Files, after: Files)
    ensures Mixture(before, after, before) && Mixture(before, after, after)
  {
  }

  /** Neither the directory nor anything below it is left, so the path can be used again. */
  ghost predicate NothingAt(d: Path, t: Tree) {
    forall p | Exists(t, p) :: !Within(d, p)
  }

  /** Undoes what has been applied, whatever stopped the commit, and clears the staging directory. */
  method RollbackAfterFailure(fs: Filesystem, stage: Path, result: CommitResult, applied: seq<AppliedChange>, made: seq<Path>,
                              ghost todo: seq<FileChange>, ghost base: Files, ghost floor: Tree)
    returns (r: CommitResult, errors: Errors)
    requires Closed(fs.tree) && Closed(floor) && Committable(todo, stage)
    requires fs.tree.dirs == floor.dirs + Elements(made) && MadeInOrder(made, floor.dirs)
    requires base.Keys <= floor.files.Keys
    requires |applied| <= |todo| && applied == AllApplied(stage, todo[..|applied|])
    requires Applying(fs.tree.files, stage, todo, |applied|, base, floor.files)
    modifies fs`tree, fs`faults
    ensures Closed(fs.tree) && fs.faults >= old(fs.faults)
    ensures errors != {} && !r.atomicCommitCompleted && r.filesWritten == [] && r.preservedFiles == result.preservedFiles
    ensures Mixture(base, Overlaid(base, todo), Project(fs.tree.files, {stage}))
    ensures r.targetUnchanged ==> Project(fs.tree.files, {stage}) == base
    ensures r.targetUnchanged ==> fs.tree.dirs <= floor.dirs
    ensures fs.tree.dirs <= old(fs.tree.dirs) && forall d | d in floor.dirs && !Within(stage, d) :: d in fs.tree.dirs
    ensures r.stagingCleanupCompleted ==> NothingInside(stage, fs.tree.files) && NothingAt(stage, fs.tree)
    ensures r.rollbackAttempted <==> applied != [] || made != []
    ensures r.rollbackCompleted <==> r.rollbackAttempted && r.targetUnchanged
    ensures r.targetUnchanged <==> RollbackFailed !in errors
    ensures fs.faults == old(fs.faults) ==> r.targetUnchanged && r.stagingCleanupCompleted
  {
    AppliedUndoable(fs.tree.files, stage, todo, |applied|, base, floor.files);
    forall p | p in fs.tree.files && Hidden({stage}, p)
      ensures p in floor.files
    {
      HiddenByStage(stage, p);
    }
    var undone := RollbackApplied(fs, applied, made, base, {stage}, floor, true);
    PartOfAll(todo, |applied|);
    MixtureOfMore(base, todo[..|applied|], todo, Project(fs.tree.files, {stage}));
    ghost var before := fs.tree;
    var cleaned := fs.RemoveAll(stage);
    PrunedProject(before, fs.tree, stage);
    var attempted := applied != [] || made != [];
    r := result.(rollbackAttempted := attempted, rollbackCompleted := attempted && undone,
                 stagingCleanupCompleted := cleaned, atomicCommitCompleted := false, targetUnchanged := undone,
                 filesWritten := []);
    errors := if undone then {CommitFailed} else {CommitFailed, RollbackFailed};
  }

  lemma PartOfAll(todo: seq<FileChange>, n: nat)
    requires DistinctKeys(todo, ChangePath) && n <= |todo|
    ensures DistinctKeys(todo[..n], ChangePath) && forall c :: c in todo[..n] ==> c in todo
  {
    forall i, j | 0 <= i < j < n
      ensures ChangePath(todo[..n][i]) != ChangePath(todo[..n][j])
    {
      assert ChangePath(todo[i]) != ChangePath(todo[j]);
    }
  }

  // ---------------------------------------------------------------- the commit

  method ValidateCommitPaths(request: Request, changes: seq<FileChange>) returns (ok: bool)
    ensures ok <==> PathsCommittable(request, changes)
  {
    if !SafePath(request.stagingPath) || !SafePath(request.rollbackPointPath) ||
       Overlap(request.stagingPath, request.rollbackPointPath) {
      return false;
    }
    for i := 0 to |changes|
      invariant forall c | c in changes[..i] :: PathCommittable(request, c)
    {
      assert changes[..i + 1] == changes[..i] + [changes[i]];
      if changes[i].action == Unset || Overlap(changes[i].path, request.stagingPath) ||
         Overlap(changes[i].path, request.rollbackPointPath) {
        assert changes[i] in changes;
        return false;
      }
    }
    assert changes[..|changes|] == changes;
    return true;
  }

  predicate PathCommittable(request: Request, c: FileChange) {
    c.action != Unset && !Overlap(c.path, request.stagingPath) && !Overlap(c.path, request.rollbackPointPath)
  }

  predicate PathsCommittable(request: Request, changes: seq<FileChange>) {
    SafePath(request.stagingPath) && SafePath(request.rollbackPointPath) &&
    !Overlap(request.stagingPath, request.rollbackPointPath) && forall c | c in changes :: PathCommittable(request, c)
  }

  /** Every written file reads back with the digest its change announced. */
  method VerifyWritten(fs: Filesystem, changes: seq<FileChange>) returns (ok: bool)
    modifies fs`faults
    ensures fs.faults >= old(fs.faults)
    ensures ok ==> forall c | c in changes && c.action != Unchanged :: c.path in fs.tree.files && Sha256(fs.tree.files[c.path]) == c.sha
    ensures !ok && fs.faults == old(fs.faults) ==>
              exists c :: c in changes && c.action != Unchanged && (c.path !in fs.tree.files || Sha256(fs.tree.files[c.path]) != c.sha)
  {
    for i := 0 to |changes|
      invariant fs.faults >= old(fs.faults)
      invariant forall c | c in changes[..i] && c.action != Unchanged :: c.path in fs.tree.files && Sha256(fs.tree.files[c.path]) == c.sha
    {
      assert changes[..i + 1] == changes[..i] + [changes[i]];
      if changes[i].action != Unchanged {
        var content := fs.ReadFile(changes[i].path);
        if content.Err? || Sha256(content.value) != changes[i].sha {
          assert changes[i] in changes;
          return false;
        }
      }
    }
    assert changes[..|changes|] == changes;
    return true;
  }

  lemma {:induction false} EffectiveDistinct(changes: seq<FileChange>)
    requires DistinctKeys(changes, ChangePath)
    ensures DistinctKeys(Effective(changes), ChangePath)
  {
    if changes != [] {
      var n := |changes| - 1;
      forall i, j | 0 <= i < j < n
        ensures ChangePath(changes[..n][i]) != ChangePath(changes[..n][j])
      {
        assert ChangePath(changes[i]) != ChangePath(changes[j]);
      }
      EffectiveDistinct(changes[..n]);
      var rest := Effective(changes[..n]);
      forall i | 0 <= i < |rest|
        ensures ChangePath(rest[i]) != ChangePath(changes[n])
      {
        assert rest[i] in changes[..n];
        var k :| 0 <= k < n && changes[..n][k] == rest[i];
        assert ChangePath(changes[k]) != ChangePath(changes[n]);
      }
    }
  }

  /** The order of the changes does not matter to the result. */
  lemma EffectivePermuted(base: Files, changes: seq<FileChange>, sorted: seq<FileChange>)
    requires IsSortOf(sorted, changes, ChangePath) && DistinctKeys(changes, ChangePath)
    ensures DistinctKeys(sorted, ChangePath) && DistinctKeys(Effective(sorted), ChangePath)
    ensures Overlaid(base, Effective(sorted)) == Overlaid(base, Effective(changes))
    ensures forall c :: c in Effective(sorted) <==> c in Effective(changes)
  {
    SortKeepsMembers(sorted, changes, ChangePath);
    SortOfDistinctIsStrict(sorted, changes, ChangePath);
    EffectiveDistinct(changes);
    EffectiveDistinct(sorted);
    OverlaidMembers(base, Effective(sorted), Effective(changes));
  }

  /** What every exit of a commit guarantees, over the files before it and the changes it was to make. */
  ghost predicate CommitOutcome(stage: Path, base: Files, after: Files, now: Files, r: CommitResult, errors: Errors) {
    MixedOutside(stage, base, after, now) && InsideKept(stage, base, now) &&
    (r.targetUnchanged ==> SameOutside(stage, base, now)) &&
    (r.stagingCleanupCompleted ==> NothingInside(stage, now)) &&
    (errors == {} <==> r.atomicCommitCompleted) &&
    (errors == {} ==> now == after && r.stagingCleanupCompleted && NothingInside(stage, base)) &&
    (r.rollbackCompleted ==> r.rollbackAttempted && r.targetUnchanged) &&
    (r.rollbackAttempted ==> (r.rollbackCompleted <==> RollbackFailed !in errors)) &&
    (RollbackFailed in errors ==> !r.targetUnchanged) &&
    (errors != {} && RollbackFailed !in errors ==> SameOutside(stage, base, now) || OnlyCleanupFailed(stage, after, now, r))
  }

  /** The one way in which an error that is no failed rollback leaves the target changed: completely, with staging files left. */
  ghost predicate OnlyCleanupFailed(stage: Path, after: Files, now: Files, r: CommitResult) {
    SameOutside(stage, after, now) && !r.stagingCleanupCompleted && !r.rollbackAttempted && !r.targetUnchanged && !r.atomicCommitCompleted
  }

  /** Success reports every change once; an untouched target reports at most files that needed no change. */
  predicate Reported(changes: seq<FileChange>, r: CommitResult, errors: Errors) {
    (errors == {} ==> multiset(r.filesWritten) == multiset(changes)) &&
    (errors != {} && r.targetUnchanged ==> KeptFrom(r.filesWritten, changes))
  }

  /** All or nothing: outside the staging directory the target is as it was, or as it was to become. */
  ghost predicate AllOrNothing(stage: Path, base: Files, after: Files, now: Files) {
    SameOutside(stage, base, now) || SameOutside(stage, after, now)
  }

  /** An exit before anything outside the staging directory has been touched. */
  lemma OutcomeUntouched(stage: Path, base: Files, after: Files, now: Files, r: CommitResult, errors: Errors)
    requires now == base || (NothingInside(stage, base) && SameOutside(stage, base, now))
    requires errors != {} && RollbackFailed !in errors
    requires !r.atomicCommitCompleted && !r.rollbackAttempted && !r.rollbackCompleted && (r.stagingCleanupCompleted ==> NothingInside(stage, now))
    ensures CommitOutcome(stage, base, after, now, r, errors)
  {
    MixtureReflexive(Project(base, {stage}), Project(after, {stage}));
  }

  function JournalText(items: seq<JournalItem>): Bytes {
    if items == [] then "\n" else items[0].path + "\n" + JournalText(items[1..])
  }

  /** With everything staged, nothing is applied yet. */
  lemma StagedReady(files: Files, stage: Path, todo: seq<FileChange>, base: Files)
    requires Project(files, {stage}) == base && NothingInside(stage, base)
    requires Committable(todo, stage) && AllStaged(files, stage, todo)
    ensures Applying(files, stage, todo, 0, base, files)
  {
    forall j | 0 <= j < |todo|
      ensures At(files, StagedPath(stage, todo[j].path)) == Some(todo[j].bytes)
      ensures todo[j].action == Updated ==>
                todo[j].path in base && At(files, BackupPath(stage, todo[j].path)) == Some(base[todo[j].path])
    {
      assert todo[j] in todo;
      NotWithinStage(todo, stage, j);
      ProjectAt(files, {stage}, todo[j].path);
    }
  }

  /** With every change applied, each file reads back as announced. */
  lemma AppliedReadsBack(files: Files, stage: Path, todo: seq<FileChange>, base: Files, floor: Files)
    requires Committable(todo, stage) && Applying(files, stage, todo, |todo|, base, floor)
    requires forall c | c in todo :: c.sha == Sha256(c.bytes)
    ensures forall c | c in todo :: c.path in files && Sha256(files[c.path]) == c.sha
  {
    assert todo[..|todo|] == todo;
    forall c | c in todo
      ensures At(files, c.path) == Some(c.bytes)
    {
      var j :| 0 <= j < |todo| && todo[j] == c;
      NotWithinStage(todo, stage, j);
      OverlaidAt(base, todo, c);
      ProjectAt(files, {stage}, c.path);
    }
  }

  /** The rest of a commit once every change is staged. */
  method CommitApplied(fs: Filesystem, stage: Path, start: CommitResult, changes: seq<FileChange>, todo: seq<FileChange>,
                       items: seq<JournalItem>, ghost base: Files, ghost floor: Tree, ghost fits: bool)
    returns (r: CommitResult, errors: Errors)
    requires Closed(fs.tree) && fs.tree == floor && NothingInside(stage, base) && base.Keys <= floor.files.Keys
    requires DistinctKeys(changes, ChangePath) && todo == Effective(changes) && Committable(todo, stage)
    requires items == ItemsFor(stage, todo) && Applying(fs.tree.files, stage, todo, 0, base, floor.files)
    requires !start.rollbackAttempted && !start.rollbackCompleted
    requires fits ==> AllAppliable(floor, todo)
    modifies fs`tree, fs`faults
    ensures Closed(fs.tree) && fs.faults >= old(fs.faults)
    ensures CommitOutcome(stage, base, Overlaid(base, todo), fs.tree.files, r, errors)
    ensures RollbackFailed in errors ==> fs.faults > old(fs.faults) + (if fits then 1 else 0)
    ensures errors == {} ==> (r.targetUnchanged <==> todo == []) && r.filesWritten == start.filesWritten + todo
    ensures errors != {} && r.targetUnchanged ==> r.filesWritten == []
    ensures r.preservedFiles == start.preservedFiles && (r.stagingCleanupCompleted ==> NothingAt(stage, fs.tree))
    ensures errors != {} && r.targetUnchanged ==> fs.tree.dirs <= floor.dirs
    ensures forall d | d in floor.dirs && !Within(stage, d) :: d in fs.tree.dirs
    ensures forall d | d in fs.tree.dirs && d !in floor.dirs :: LeadsToChange(todo, d)
    ensures errors != {} && fits ==> fs.faults > old(fs.faults)
  {
    NothingInsideProject(stage, base);
    OverlaidOutside(stage, base, todo);
    NothingInsideProject(stage, Overlaid(base, todo));
    var applied, made, ok := ApplyAll(fs, stage, changes, todo, items, base, floor, fits);
    if ok {
      if fits {
        AppliedReadsBack(fs.tree.files, stage, todo, base, floor.files);
      }
      ok := VerifyWritten(fs, changes);
    }
    if !ok {
      r, errors := RollbackAfterFailure(fs, stage, start, applied, made, todo, base, floor);
      return;
    }
    AppliedAll(stage, todo);
    r, errors := FinishCommit(fs, stage, start, applied, todo, base);
  }

  lemma AppliedAll(stage: Path, todo: seq<FileChange>)
    ensures todo[..|todo|] == todo && ChangesOf(AllApplied(stage, todo)) == todo
  {
  }

  /** Clears the staging directory of a commit that has applied everything. */
  method FinishCommit(fs: Filesystem, stage: Path, start: CommitResult, applied: seq<AppliedChange>, todo: seq<FileChange>, ghost base: Files)
    returns (r: CommitResult, errors: Errors)
    requires Closed(fs.tree) && ChangesOf(applied) == todo && Project(fs.tree.files, {stage}) == Overlaid(base, todo)
    requires NothingInside(stage, base) && NothingInside(stage, Overlaid(base, todo))
    requires !start.rollbackAttempted && !start.rollbackCompleted
    modifies fs`tree, fs`faults
    ensures Closed(fs.tree) && fs.faults >= old(fs.faults) && fs.tree.dirs <= old(fs.tree.dirs)
    ensures forall d | d in old(fs.tree.dirs) && !Within(stage, d) :: d in fs.tree.dirs
    ensures CommitOutcome(stage, base, Overlaid(base, todo), fs.tree.files, r, errors)
    ensures RollbackFailed !in errors && (errors == {} ==> (r.targetUnchanged <==> todo == []) && r.filesWritten == start.filesWritten + todo)
    ensures errors != {} ==> !r.targetUnchanged && fs.faults > old(fs.faults)
    ensures r.preservedFiles == start.preservedFiles && (r.stagingCleanupCompleted ==> NothingAt(stage, fs.tree))
  {
    NothingInsideProject(stage, base);
    NothingInsideProject(stage, Overlaid(base, todo));
    ghost var before := fs.tree;
    MixtureReflexive(base, Overlaid(base, todo));
    var cleaned := fs.RemoveAll(stage);
    PrunedProject(before, fs.tree, stage);
    r := start.(stagingCleanupCompleted := cleaned, atomicCommitCompleted := cleaned, targetUnchanged := cleaned && |applied| == 0,
                filesWritten := start.filesWritten + ChangesOf(applied));
    errors := if cleaned then {} else {CommitFailed};
    if cleaned {
      NothingInsideProject(stage, fs.tree.files);
    }
  }

  /** Gives up before anything was applied. */
  method AbandonStaging(fs: Filesystem, stage: Path, start: CommitResult, failure: Errors, ghost base: Files, ghost after: Files)
    returns (r: CommitResult)
    requires Closed(fs.tree) && NothingInside(stage, base) && SameOutside(stage, base, fs.tree.files)
    requires failure != {} && RollbackFailed !in failure
    requires !start.atomicCommitCompleted && !start.rollbackAttempted && !start.rollbackCompleted
    modifies fs`tree, fs`faults
    ensures Closed(fs.tree) && fs.faults >= old(fs.faults)
    ensures CommitOutcome(stage, base, after, fs.tree.files, r, failure) && r.targetUnchanged
    ensures r.preservedFiles == start.preservedFiles && !r.rollbackAttempted == !start.rollbackAttempted && r.filesWritten == start.filesWritten
    ensures PartlyPruned(old(fs.tree), fs.tree, stage) && (r.stagingCleanupCompleted ==> NothingAt(stage, fs.tree))
  {
    ghost var before := fs.tree;
    var cleaned := fs.RemoveAll(stage);
    PrunedProject(before, fs.tree, stage);
    r := start.(stagingCleanupCompleted := cleaned, targetUnchanged := true);
    OutcomeUntouched(stage, base, after, fs.tree.files, r, failure);
  }

  lemma AppliableIsStageable(t: Tree, changes: seq<FileChange>)
    requires AllAppliable(t, Effective(changes)) && DistinctKeys(changes, ChangePath)
    ensures AllStageable(t.files, changes)
  {
  }

  /** The commit journal has its own place beside the staged files and the backups. */
  lemma JournalFree(t: Tree, stage: Path, done: set<Path>)
    requires Closed(t) && stage in t.dirs && StageShape(t, stage, done)
    ensures !Exists(t, Join(stage, "commit-journal.json")) && !Blocked(t, Join(stage, "commit-journal.json"))
  {
    var path := Join(stage, "commit-journal.json");
    JoinWithin(stage, "commit-journal.json");
    assert path[|stage| + 1] == 'c' && FilesRoot(stage)[|stage| + 1] == 'f' && BackupsRoot(stage)[|stage| + 1] == 'b';
    assert Ancestors(stage) <= t.dirs;
    forall a | Ancestor(a, path)
      ensures a !in t.files
    {
      AncestorsComparable(stage, a, path);
      if Ancestor(stage, a) {
        assert a[|stage| + 1] == path[|stage| + 1];
      } else {
        assert a == stage || a in Ancestors(stage);
      }
    }
  }

  /** What grows inside the staging directory does not matter to changes outside it. */
  lemma GrownFits(t: Tree, grown: Tree, stage: Path, todo: seq<FileChange>)
    requires Grown(t, grown, stage) && Committable(todo, stage) && AllFit(t, todo)
    ensures AllFit(grown, todo)
  {
    forall c | c in todo
      ensures FitsTarget(grown, c)
    {
      assert FitsTarget(t, c) && !Overlap(c.path, stage);
      forall a | Ancestor(a, c.path)
        ensures a !in grown.files
      {
        if Within(stage, a) {
          AncestorTransitive(stage, a, c.path);
        }
      }
    }
  }

  /** What has been staged does not nest and has the announced digests: two staged copies would be in each other's way. */
  lemma StagedAppliable(t: Tree, stage: Path, todo: seq<FileChange>)
    requires Closed(t) && AllStaged(t.files, stage, todo) && AllFit(t, todo)
    ensures AllAppliable(t, todo)
  {
    forall p, q | p in PathSet(todo) && q in PathSet(todo)
      ensures !Ancestor(p, q)
    {
      var c :| c in todo && c.path == p;
      var d :| d in todo && d.path == q;
      assert Ancestors(StagedPath(stage, q)) <= t.dirs;
      JoinKeepsAncestor(FilesRoot(stage), p, q);
    }
  }

  /** From a new, empty staging directory to the end of the commit. */
  method CommitStaged(fs: Filesystem, stage: Path, start: CommitResult, changes: seq<FileChange>,
                      ghost base: Files, ghost dirs: set<Path>, ghost fits: bool)
    returns (r: CommitResult, errors: Errors)
    requires Closed(fs.tree) && stage in fs.tree.dirs && fs.tree.files == base && NothingInside(stage, base)
    requires SameDirectories(stage, dirs, fs.tree.dirs) && forall d | d in dirs :: !Within(stage, d)
    requires forall d | d in fs.tree.dirs :: !Ancestor(stage, d)
    requires DistinctKeys(changes, ChangePath) && Committable(Effective(changes), stage)
    requires !start.atomicCommitCompleted && !start.rollbackAttempted && !start.rollbackCompleted
    requires fits ==> AllAppliable(fs.tree, Effective(changes))
    modifies fs`tree, fs`faults
    ensures Closed(fs.tree) && fs.faults >= old(fs.faults) && dirs <= fs.tree.dirs
    ensures CommitOutcome(stage, base, Overlaid(base, Effective(changes)), fs.tree.files, r, errors)
    ensures RollbackFailed in errors ==> fs.faults > old(fs.faults) + (if AllFit(old(fs.tree), Effective(changes)) then 1 else 0)
    ensures errors == {} ==> (r.targetUnchanged <==> Effective(changes) == []) &&
                             forall c | c in Effective(changes) :: c.sha == Sha256(c.bytes)
    ensures Reported(changes, r, errors) && r.preservedFiles == start.preservedFiles
    ensures r.stagingCleanupCompleted ==> NothingAt(stage, fs.tree)
    ensures errors != {} && r.targetUnchanged ==> SameDirectories(stage, dirs, fs.tree.dirs)
    ensures OnlyNeededDirectories(stage, Effective(changes), dirs, fs.tree.dirs)
    ensures errors != {} && fits ==> fs.faults > old(fs.faults)
  {
    var todo := Effective(changes);
    ghost var t0 := fs.tree;
    var items, kept, failure := StageAll(fs, stage, changes, fits);
    ghost var floor := fs.tree;
    GrownProject(t0, floor, stage);
    NothingInsideProject(stage, base);
    if failure.Some? {
      r := AbandonStaging(fs, stage, start.(filesWritten := kept), failure.value, base, Overlaid(base, todo));
      errors := failure.value;
      return;
    }
    KeptAndEffective(changes);
    StagedReady(floor.files, stage, todo, base);
    ghost var calm := AllFit(t0, todo);
    if calm {
      GrownFits(t0, floor, stage, todo);
      StagedAppliable(floor, stage, todo);
    }
    r, errors := CommitApplied(fs, stage, start.(filesWritten := kept), changes, todo, items, base, floor, calm);
  }

  /** Stages every change and writes the journal beside them. */
  method StageAll(fs: Filesystem, stage: Path, changes: seq<FileChange>, ghost fits: bool)
    returns (items: seq<JournalItem>, kept: seq<FileChange>, failure: Option<Errors>)
    requires Closed(fs.tree) && stage in fs.tree.dirs && NothingInside(stage, fs.tree.files)
    requires forall d | d in fs.tree.dirs :: !Ancestor(stage, d)
    requires DistinctKeys(changes, ChangePath)
    requires fits ==> AllAppliable(fs.tree, Effective(changes))
    modifies fs`tree, fs`faults
    ensures Closed(fs.tree) && fs.faults >= old(fs.faults)
    ensures Grown(old(fs.tree), fs.tree, stage)
    ensures failure.Some? ==> failure.value == {Cancelled} || failure.value == {CommitFailed}
    ensures KeptFrom(kept, changes) && (failure.None? ==> kept == Kept(changes))
    ensures failure.None? ==> AllStaged(fs.tree.files, stage, Effective(changes)) && items == ItemsFor(stage, Effective(changes)) &&
                              At(fs.tree.files, Join(stage, "commit-journal.json")) == Some(JournalText(items))
    ensures failure.Some? && fits ==> fs.faults > old(fs.faults)
  {
    var path := Join(stage, "commit-journal.json");
    JoinWithin(stage, "commit-journal.json");
    ghost var t0 := fs.tree;
    EmptyStage(t0, stage);
    if fits {
      AppliableIsStageable(t0, changes);
    }
    items, kept, failure := StageChanges(fs, stage, changes);
    if failure.Some? {
      return;
    }
    ghost var t1 := fs.tree;
    JournalFree(t1, stage, PathSet(Effective(changes)));
    var written := WriteNewFile(fs, path, JournalText(items));
    NewFileGrown(t1, fs.tree, stage, path);
    GrownTransitive(t0, t1, fs.tree, stage);
    StagedStay(t1, fs.tree, stage, Effective(changes));
    if !written {
      failure := Some({CommitFailed});
    }
  }

  lemma StagedStay(t: Tree, grown: Tree, stage: Path, changes: seq<FileChange>)
    requires Grown(t, grown, stage) && AllStaged(t.files, stage, changes)
    ensures AllStaged(grown.files, stage, changes)
  {
    forall c | c in changes
      ensures IsStaged(grown.files, stage, c)
    {
      StagedGrows(t, grown, stage, c);
    }
  }

  /** A new staging directory holds nothing. */
  lemma EmptyStage(t: Tree, stage: Path)
    requires NothingInside(stage, t.files) && forall d | d in t.dirs :: !Ancestor(stage, d)
    ensures StageShape(t, stage, {})
  {
    JoinWithin(stage, "files");
    JoinWithin(stage, "backups");
    forall p | Within(FilesRoot(stage), p) || Within(BackupsRoot(stage), p)
      ensures Ancestor(stage, p)
    {
      if Within(FilesRoot(stage), p) {
        AncestorTransitive(stage, FilesRoot(stage), p);
      } else {
        AncestorTransitive(stage, BackupsRoot(stage), p);
      }
    }
  }

  /** New directories lie on the way to, or inside, the staging directory, or on the way to a changed file. */
  ghost predicate OnlyNeededDirectories(stage: Path, todo: seq<FileChange>, before: set<Path>, now: set<Path>) {
    forall d | d in now && d !in before :: Within(d, stage) || Within(stage, d) || LeadsToChange(todo, d)
  }

  /**
   The commit of a prepared change set. Only a failed rollback can leave it half done, which takes a failing operation
   in the rollback and, if the changes fitted the target, another one that made it necessary.
   */
  method CommitChanges(fs: Filesystem, request: Request, prepared: PreparedChangeSet)
    returns (r: CommitResult, errors: Errors)
    requires Closed(fs.tree)
    requires NoneUnset(prepared.changes) ==> DistinctKeys(prepared.changes, ChangePath)
    modifies fs
    ensures Closed(fs.tree) && fs.faults >= old(fs.faults) && old(fs.seen) <= fs.seen && old(fs.tree.dirs) <= fs.tree.dirs
    ensures CommitOutcome(request.stagingPath, old(fs.tree.files), Overlaid(old(fs.tree.files), Effective(prepared.changes)),
                          fs.tree.files, r, errors)
    ensures errors == {} || RollbackFailed in errors ==> request.operation != Validate && NoneUnset(prepared.changes)
    ensures RollbackFailed in errors ==>
              fs.faults > old(fs.faults) + (if AllFit(old(fs.tree), Effective(prepared.changes)) then 1 else 0)
    ensures errors == {} ==> AsExpected(old(fs.tree.files), prepared.snapshot) && PathsCommittable(request, prepared.changes) &&
                             (r.targetUnchanged <==> Effective(prepared.changes) == []) &&
                             forall c | c in Effective(prepared.changes) :: c.sha == Sha256(c.bytes)
    ensures !NoneUnset(prepared.changes) ==> fs.tree.files == old(fs.tree.files)
    ensures Reported(prepared.changes, r, errors) && r.preservedFiles == prepared.preserved
    ensures r.stagingCleanupCompleted ==> NothingAt(request.stagingPath, fs.tree)
    ensures errors != {} && r.targetUnchanged ==> SameDirectories(request.stagingPath, old(fs.tree.dirs), fs.tree.dirs)
    ensures r.targetUnchanged ==> AsExpected(old(fs.tree.files), prepared.snapshot) && PathsCommittable(request, prepared.changes)
    ensures errors == {} ==> prepared.diagnostics == [] && request.operation != Validate
    ensures OnlyNeededDirectories(request.stagingPath, Effective(prepared.changes), old(fs.tree.dirs), fs.tree.dirs)
    ensures errors == {} ==> forall a | Ancestor(a, request.stagingPath) :: a !in old(fs.tree.files)
    ensures errors != {} && CommitPossible(old(fs.tree), request, prepared) ==> fs.faults > old(fs.faults)
  {
    r := CommitResult([], prepared.preserved, false, false, false, false, false);
    var stage := request.stagingPath;
    ghost var t0, fits := fs.tree, CommitPossible(fs.tree, request, prepared);
    ghost var base := fs.tree.files;
    var refused := OpenStage(fs, request, prepared);
    if refused.Some? {
      errors := {refused.value};
      OutcomeUntouched(stage, base, Overlaid(base, Effective(prepared.changes)), base, r, errors);
      return;
    }
    r, errors := CommitOpened(fs, request, prepared.changes, r, t0, fits);
  }

  /** From the new staging directory on, in path order. */
  method CommitOpened(fs: Filesystem, request: Request, changes: seq<FileChange>, start: CommitResult, ghost t0: Tree, ghost fits: bool)
    returns (r: CommitResult, errors: Errors)
    requires Closed(fs.tree) && DistinctKeys(changes, ChangePath) && PathsCommittable(request, changes)
    requires NothingInside(request.stagingPath, t0.files) && forall d | d in t0.dirs :: !Within(request.stagingPath, d)
    requires fs.tree == Tree(t0.files, t0.dirs + Ancestors(request.stagingPath) + {request.stagingPath})
    requires !start.atomicCommitCompleted && !start.rollbackAttempted && !start.rollbackCompleted
    requires fits ==> AllAppliable(t0, Effective(changes))
    modifies fs`tree, fs`faults
    ensures Closed(fs.tree) && fs.faults >= old(fs.faults) && t0.dirs <= fs.tree.dirs
    ensures CommitOutcome(request.stagingPath, t0.files, Overlaid(t0.files, Effective(changes)), fs.tree.files, r, errors)
    ensures RollbackFailed in errors ==> fs.faults > old(fs.faults) + (if AllFit(t0, Effective(changes)) then 1 else 0)
    ensures errors == {} ==> (r.targetUnchanged <==> Effective(changes) == []) &&
                             forall c | c in Effective(changes) :: c.sha == Sha256(c.bytes)
    ensures Reported(changes, r, errors) && r.preservedFiles == start.preservedFiles
    ensures r.stagingCleanupCompleted ==> NothingAt(request.stagingPath, fs.tree)
    ensures errors != {} && r.targetUnchanged ==> SameDirectories(request.stagingPath, t0.dirs, fs.tree.dirs)
    ensures OnlyNeededDirectories(request.stagingPath, Effective(changes), t0.dirs, fs.tree.dirs)
    ensures errors != {} && fits ==> fs.faults > old(fs.faults)
  {
    var sorted := Sort(changes, ChangePath);
    EffectivePermuted(t0.files, changes, sorted);
    StillCommittable(request, changes, sorted);
    SortKeepsMembers(sorted, changes, ChangePath);
    EffectiveEmpty(changes, sorted);
    SortedFits(t0, fs.tree, request, changes, sorted);
    JustOpened(t0, fs.tree, request.stagingPath);
    r, errors := CommitStaged(fs, request.stagingPath, start, sorted, t0.files, t0.dirs, fits);
    OnlyNeededForSame(request.stagingPath, changes, sorted, t0.dirs, fs.tree.dirs);
  }

  /** A new staging directory holds nothing, and with the directories leading to it is all that is new. */
  lemma JustOpened(t: Tree, staging: Tree, stage: Path)
    requires forall d | d in t.dirs :: !Within(stage, d)
    requires staging == Tree(t.files, t.dirs + Ancestors(stage) + {stage})
    ensures stage in staging.dirs && SameDirectories(stage, t.dirs, staging.dirs) && forall d | d in staging.dirs :: !Ancestor(stage, d)
  {
  }

  /** What the checks before staging ask for. */
  ghost predicate StageOpenable(t: Tree, request: Request, prepared: PreparedChangeSet) {
    prepared.diagnostics == [] && request.operation != Validate && AsExpected(t.files, prepared.snapshot) &&
    PathsCommittable(request, prepared.changes) && !Exists(t, request.stagingPath) && !Blocked(t, request.stagingPath)
  }

  /**
   Everything a commit needs besides working operations: a conflict-free change set for this very target, a free
   staging path, and changes that fit what they are to replace without nesting.
   */
  ghost predicate CommitPossible(t: Tree, request: Request, prepared: PreparedChangeSet) {
    StageOpenable(t, request, prepared) && AllAppliable(t, Effective(prepared.changes))
  }

  /** What the error of these checks says. */
  ghost predicate StageRefused(t: Tree, request: Request, prepared: PreparedChangeSet, e: Error, faulty: bool) {
    match e
    case OwnershipConflict => prepared.diagnostics != [] || request.operation == Validate
    case TargetChanged => !AsExpected(t.files, prepared.snapshot) || faulty
    case InvalidInput => !AsExpected(t.files, prepared.snapshot) || !PathsCommittable(request, prepared.changes) || faulty
    case TargetUnsafe => !AsExpected(t.files, prepared.snapshot) || Exists(t, request.stagingPath) || Blocked(t, request.stagingPath) || faulty
    case _ => e == CommitFailed && faulty
  }

  /** The checks before anything is staged, and the new staging directory. */
  method OpenStage(fs: Filesystem, request: Request, prepared: PreparedChangeSet) returns (refused: Option<Error>)
    requires Closed(fs.tree)
    modifies fs
    ensures Closed(fs.tree) && fs.faults >= old(fs.faults) && fs.tree.files == old(fs.tree.files) && old(fs.seen) <= fs.seen
    ensures refused.Some? ==> StageRefused(old(fs.tree), request, prepared, refused.value, fs.faults > old(fs.faults))
    ensures refused.Some? && fs.faults == old(fs.faults) ==> !StageOpenable(old(fs.tree), request, prepared)
    ensures SameDirectories(request.stagingPath, old(fs.tree.dirs), fs.tree.dirs)
    ensures refused.None? ==>
              prepared.diagnostics == [] && request.operation != Validate && AsExpected(fs.tree.files, prepared.snapshot) &&
              PathsCommittable(request, prepared.changes) &&
              request.stagingPath in fs.tree.dirs && NothingInside(request.stagingPath, fs.tree.files) &&
              (forall d | d in old(fs.tree.dirs) :: !Within(request.stagingPath, d)) &&
              fs.tree.dirs == old(fs.tree.dirs) + Ancestors(request.stagingPath) + {request.stagingPath} &&
              forall a | Ancestor(a, request.stagingPath) :: a !in fs.tree.files
  {
    var stage := request.stagingPath;
    if prepared.diagnostics != [] || request.operation == Validate {
      return Some(OwnershipConflict);
    }
    var drift := VerifySnapshot(fs, prepared.snapshot);
    if drift.Some? {
      return drift;
    }
    var committable := ValidateCommitPaths(request, prepared.changes);
    if !committable {
      return Some(InvalidInput);
    }
    var free := ResolveNonexistent(fs, stage);
    if !free {
      return Some(TargetUnsafe);
    }
    NothingBelow(fs.tree, stage);
    var created, blocked := CreateSafeDirectory(fs, stage);
    if !created {
      return Some(if blocked then TargetUnsafe else CommitFailed);
    }
    NotBlocked(fs.tree, stage);
    return None;
  }

  lemma StillFits(t: Tree, staging: Tree, request: Request, changes: seq<FileChange>, sorted: seq<FileChange>)
    requires AllFit(t, Effective(changes)) && PathsCommittable(request, changes)
    requires forall c :: c in Effective(sorted) <==> c in Effective(changes)
    requires staging == Tree(t.files, t.dirs + Ancestors(request.stagingPath) + {request.stagingPath})
    ensures AllFit(staging, Effective(sorted))
  {
    forall c | c in Effective(sorted)
      ensures FitsTarget(staging, c)
    {
      assert c in changes && FitsTarget(t, c) && !Overlap(c.path, request.stagingPath);
    }
  }

  lemma StillAppliable(t: Tree, staging: Tree, changes: seq<FileChange>, sorted: seq<FileChange>)
    requires AllAppliable(t, Effective(changes)) && AllFit(staging, Effective(sorted))
    requires forall c :: c in Effective(sorted) <==> c in Effective(changes)
    ensures AllAppliable(staging, Effective(sorted))
  {
    assert PathSet(Effective(sorted)) == PathSet(Effective(changes));
    forall c | c in Effective(sorted)
      ensures Appliable(staging, c)
    {
      assert Appliable(t, c) && FitsTarget(staging, c);
    }
  }

  /** Neither the order of the changes nor the new staging directory matters to whether they fit. */
  lemma SortedFits(t: Tree, staging: Tree, request: Request, changes: seq<FileChange>, sorted: seq<FileChange>)
    requires PathsCommittable(request, changes) && forall c :: c in Effective(sorted) <==> c in Effective(changes)
    requires staging == Tree(t.files, t.dirs + Ancestors(request.stagingPath) + {request.stagingPath})
    ensures AllFit(t, Effective(changes)) ==> AllFit(staging, Effective(sorted))
    ensures AllAppliable(t, Effective(changes)) ==> AllAppliable(staging, Effective(sorted))
  {
    if AllAppliable(t, Effective(changes)) {
      AppliableFits(t, Effective(changes));
    }
    if AllFit(t, Effective(changes)) {
      StillFits(t, staging, request, changes, sorted);
    }
    if AllAppliable(t, Effective(changes)) {
      StillAppliable(t, staging, changes, sorted);
    }
  }

  lemma StillCommittable(request: Request, changes: seq<FileChange>, sorted: seq<FileChange>)
    requires PathsCommittable(request, changes) && IsSortOf(sorted, changes, ChangePath)
    requires DistinctKeys(Effective(sorted), ChangePath)
    ensures Committable(Effective(sorted), request.stagingPath)
  {
    SortKeepsMembers(sorted, changes, ChangePath);
  }

  lemma OnlyNeededForSame(stage: Path, a: seq<FileChange>, b: seq<FileChange>, before: set<Path>, now: set<Path>)
    requires forall c :: c in Effective(b) <==> c in Effective(a)
    requires OnlyNeededDirectories(stage, Effective(b), before, now)
    ensures OnlyNeededDirectories(stage, Effective(a), before, now)
  {
    forall d
      ensures LeadsToChange(Effective(a), d) <==> LeadsToChange(Effective(b), d)
    {
    }
  }

  lemma EffectiveEmpty(a: seq<FileChange>, b: seq<FileChange>)
    requires forall c :: c in Effective(a) <==> c in Effective(b)
    ensures Effective(a) == [] <==> Effective(b) == []
  {
    if Effective(a) != [] { assert Effective(a)[0] in Effective(b); }
    if Effective(b) != [] { assert Effective(b)[0] in Effective(a); }
  }

  /** Nothing lies below a path where nothing stands. */
  lemma NothingBelow(t: Tree, p: Path)
    requires Closed(t) && !Exists(t, p)
    ensures NothingInside(p, t.files) && forall d | d in t.dirs :: !Within(p, d)
  {
    forall q | Exists(t, q)
      ensures !Within(p, q)
    {
      assert Ancestors(q) <= t.dirs;
    }
  }

  // ---------------------------------------------------------------- a directory in the place of a new file

  lemma AppliedIsFile(files: Files, stage: Path, todo: seq<FileChange>, n: nat, k: nat, base: Files, floor: Files)
    requires Committable(todo, stage) && k < n <= |todo| && Applying(files, stage, todo, n, base, floor)
    ensures todo[k].path in files
  {
    PartOfAll(todo, n);
    assert todo[..n][k] == todo[k];
    OverlaidAt(base, todo[..n], todo[k]);
    NotWithinStage(todo, stage, k);
    ProjectAt(files, {stage}, todo[k].path);
  }

  /** Where a directory stands no change gets applied. */
  lemma NotAppliedOver(t: Tree, stage: Path, todo: seq<FileChange>, n: nat, k: nat, base: Files, floor: Files)
    requires Closed(t) && Committable(todo, stage) && k < |todo| && n <= |todo| && todo[k].path in t.dirs
    requires Applying(t.files, stage, todo, n, base, floor)
    ensures n <= k
  {
    if k < n {
      AppliedIsFile(t.files, stage, todo, n, k, base, floor);
      assert false;
    }
  }

  /** One of two new files makes neither the old nor the new target. */
  lemma HalfIsNeither(stage: Path, base: Files, c: FileChange, d: FileChange)
    requires c.path !in base && d.path !in base && Committable([c, d], stage) && NothingInside(stage, base)
    ensures !AllOrNothing(stage, base, Overlaid(base, [c, d]), base[c.path := c.bytes])
    ensures Overlaid(base, [c]) == base[c.path := c.bytes] && Restored(base[c.path := c.bytes], c.path, base) == base
    ensures Project(base[c.path := c.bytes], {stage}) == base[c.path := c.bytes]
  {
    assert [c, d][..1] == [c] && [c][..0] == [];
    assert ChangePath([c, d][0]) != ChangePath([c, d][1]);
    var half := base[c.path := c.bytes];
    assert c in [c, d] && d in [c, d];
    OverlaidOutside(stage, base, [c, d]);
    NothingInsideProject(stage, base);
    NothingInsideProject(stage, Overlaid(base, [c, d]));
    NothingInsideProject(stage, half);
    assert d.path in Overlaid(base, [c, d]) && d.path !in half;
    assert half - {c.path} == base;
  }

  lemma EffectiveOfTwo(c: FileChange, d: FileChange)
    requires c.action != Unchanged && d.action != Unchanged
    ensures Effective([c, d]) == [c, d]
  {
    assert [c, d][..1] == [c] && [c][..0] == [];
    assert Effective([c]) == [c];
  }

  lemma NoneApplied(files: Files, stage: Path, todo: seq<FileChange>, base: Files, floor: Files)
    requires Applying(files, stage, todo, 0, base, floor)
    ensures Project(files, {stage}) == base
  {
    assert todo[..0] == [];
  }

  lemma OneApplied(t: Tree, stage: Path, c: FileChange, d: FileChange, base: Files, t0: Tree)
    requires Closed(t0) && NothingInside(stage, base) && Committable([c, d], stage) && c.action == d.action == Created
    requires c.path !in base && d.path in t0.dirs && base == Project(t0.files, {stage})
    requires Applying(t.files, stage, [c, d], 1, base, t0.files)
    ensures Undoable(AppliedFor(stage, c), base, t.files, {stage})
    ensures c.path in t.files && Project(t.files, {stage}) == base[c.path := c.bytes]
    ensures Restored(base[c.path := c.bytes], c.path, base) == base && base != base[c.path := c.bytes]
    ensures !AllOrNothing(stage, base, Overlaid(base, [c, d]), base[c.path := c.bytes])
    ensures Project(base[c.path := c.bytes], {stage}) == base[c.path := c.bytes]
  {
    assert [c, d][..1] == [c];
    AppliedUndoable(t.files, stage, [c, d], 1, base, t0.files);
    AppliedIsFile(t.files, stage, [c, d], 1, 0, base, t0.files);
    HalfIsNeither(stage, base, c, d);
  }

  /** Applies the two, which at best applies the first. */
  method ApplyFirst(fs: Filesystem, stage: Path, c: FileChange, d: FileChange, ghost base: Files) returns (first: bool)
    requires Closed(fs.tree) && Committable([c, d], stage) && c.action == d.action == Created
    requires d.path in fs.tree.dirs && Applying(fs.tree.files, stage, [c, d], 0, base, fs.tree.files)
    modifies fs`tree, fs`faults
    ensures Closed(fs.tree) && fs.faults >= old(fs.faults)
    ensures Applying(fs.tree.files, stage, [c, d], if first then 1 else 0, base, old(fs.tree.files))
  {
    ghost var t0 := fs.tree;
    var todo := [c, d];
    EffectiveOfTwo(c, d);
    var applied, made, done := ApplyAll(fs, stage, todo, todo, ItemsFor(stage, todo), base, t0, false);
    NotAppliedOver(fs.tree, stage, todo, |applied|, 1, base, t0.files);
    first := |applied| == 1;
  }

  /** Undoes the first of the two, which takes one removal. */
  method UndoFirst(fs: Filesystem, stage: Path, c: FileChange, d: FileChange, ghost base: Files, ghost t0: Tree) returns (undone: bool)
    requires Closed(fs.tree) && Closed(t0) && NothingInside(stage, base) && Committable([c, d], stage) && c.action == d.action == Created
    requires c.path !in base && d.path in t0.dirs && base == Project(t0.files, {stage})
    requires Applying(fs.tree.files, stage, [c, d], 1, base, t0.files)
    modifies fs`tree, fs`faults
    ensures Project(fs.tree.files, {stage}) == if undone then base else base[c.path := c.bytes]
    ensures !undone ==> fs.faults > old(fs.faults) && !AllOrNothing(stage, base, Overlaid(base, [c, d]), fs.tree.files)
  {
    OneApplied(fs.tree, stage, c, d, base, t0);
    undone := UndoOne(fs, AppliedFor(stage, c), base, {stage}, true);
  }

  /**
   Two new files, and a directory in the place of the second: the first is moved into place and the second cannot be,
   though no operation has failed. Now the undo must work: one failing removal leaves the target half done.
   */
  method HalfCommitted(fs: Filesystem, stage: Path, c: FileChange, d: FileChange, ghost base: Files) returns (undone: bool)
    requires Closed(fs.tree) && NothingInside(stage, base) && Committable([c, d], stage) && c.action == d.action == Created
    requires c.path !in base && d.path in fs.tree.dirs && Applying(fs.tree.files, stage, [c, d], 0, base, fs.tree.files)
    modifies fs`tree, fs`faults
    ensures Project(fs.tree.files, {stage}) == if undone then base else base[c.path := c.bytes]
    ensures !undone ==> fs.faults > old(fs.faults) && !AllOrNothing(stage, base, Overlaid(base, [c, d]), fs.tree.files)
  {
    ghost var t0 := fs.tree;
    var first := ApplyFirst(fs, stage, c, d, base);
    if !first {
      NoneApplied(fs.tree.files, stage, [c, d], base, t0.files);
      return true;
    }
    undone := UndoFirst(fs, stage, c, d, base, t0);
  }

  lemma ExamplePath(p: Path)
    requires p == "s/files/a" || p == "s/files/b"
    ensures Ancestors(p) == {"s", "s/files"} && Within("s", p)
  {
    assert p[..1] == "s" && p[..7] == "s/files" && p[1] == '/' && p[7] == '/';
    forall a | Ancestor(a, p)
      ensures a == "s" || a == "s/files"
    {
      assert |a| == 1 || |a| == 7;
    }
  }

  lemma ExampleClosed(t: Tree)
    requires t == Tree(map["s/files/a" := "A", "s/files/b" := "A"], {"s", "s/files", "b"})
    ensures Closed(t) && Project(t.files, {"s"}) == map[]
  {
    ExamplePath("s/files/a");
    ExamplePath("s/files/b");
    assert Ancestors("s/files") == {"s"} by {
      assert "s/files"[..1] == "s";
      assert forall d | Ancestor(d, "s/files") :: |d| == 1;
    }
    assert Ancestors("s") == {} && Ancestors("b") == {};
    HiddenByStage("s", "s/files/a");
    HiddenByStage("s", "s/files/b");
  }

  lemma ExampleStaged(files: Files, a: FileChange, b: FileChange)
    requires files == map["s/files/a" := "A", "s/files/b" := "A"] && Project(files, {"s"}) == map[]
    requires a.path == "a" && a.action == Created && a.bytes == "A" && b == a.(path := "b")
    ensures Committable([a, b], "s") && Applying(files, "s", [a, b], 0, map[], files)
  {
    assert StagedPath("s", "a") == "s/files/a" && StagedPath("s", "b") == "s/files/b";
    assert [a, b][..0] == [];
    assert ChangePath(a) != ChangePath(b);
  }

  /** One input: an empty target with a directory `b`, and the two new files `a` and `b`. */
  method OneFaultTooMany() returns (fs: Filesystem, undone: bool)
    ensures fresh(fs) && Project(fs.tree.files, {"s"}) == if undone then map[] else map["a" := "A"]
    ensures fs.faults == 0 ==> undone
  {
    var a := FileChange("a", Generated, Created, "A", Sha256("A"), Sha256("A"), NoDigest);
    var b := a.(path := "b");
    var staged := Tree(map["s/files/a" := "A", "s/files/b" := "A"], {"s", "s/files", "b"});
    ExampleClosed(staged);
    ExampleStaged(staged.files, a, b);
    fs := new Filesystem(staged);
    undone := HalfCommitted(fs, "s", a, b, map[]);
  }
}
