/**
 Snapshots of a target directory: the sorted list of its regular files with their owners and digests.
 */
module Inspect {
  import opened Digests
  import opened Ordering
  import opened Paths
  import opened Model
  import opened Disk
  import opened Overlay

  type Owners = map<Path, LockedFile>

  /** What a snapshot says about one file; files the lock does not know are custom. */
  function EntryFor(files: Files, owners: Owners, p: Path): ExistingFile
    requires p in files
  {
    ExistingFile(p, OwnerOf(owners, p), Sha256(files[p]))
  }

  function OwnerOf(owners: Owners, p: Path): Ownership {
    if p in owners then owners[p].ownership else Custom
  }

  /** `list` is the snapshot of `files` under the given lock. */
  ghost predicate IsSnapshot(files: Files, owners: Owners, list: seq<ExistingFile>) {
    StrictlySorted(list, FilePath) &&
    (forall e | e in list :: e.path in files && e == EntryFor(files, owners, e.path)) &&
    (forall p | p in files :: EntryFor(files, owners, p) in list)
  }

  /** Two locks give every file the same owner. */
  predicate SameOwners(files: Files, a: Owners, b: Owners) {
    forall p | p in files :: OwnerOf(a, p) == OwnerOf(b, p)
  }

  /** The same files under agreeing locks have the same snapshot. */
  lemma SnapshotUnique(files: Files, a: Owners, b: Owners, x: seq<ExistingFile>, y: seq<ExistingFile>)
    requires IsSnapshot(files, a, x) && IsSnapshot(files, b, y) && SameOwners(files, a, b)
    ensures x == y
  {
    ListsCovered(files, a, b, x, y);
    ListsCovered(files, b, a, y, x);
    StrictlySortedUnique(x, y, FilePath);
  }

  lemma ListsCovered(files: Files, a: Owners, b: Owners, x: seq<ExistingFile>, y: seq<ExistingFile>)
    requires IsSnapshot(files, a, x) && IsSnapshot(files, b, y) && SameOwners(files, a, b)
    ensures forall e :: e in x ==> e in y
  {
    forall e | e in x
      ensures e in y
    {
      assert e == EntryFor(files, b, e.path);
    }
  }

  /** A snapshot determines the files it was taken of, and their owners. */
  lemma SnapshotDetermines(f: Files, a: Owners, g: Files, b: Owners, list: seq<ExistingFile>)
    requires IsSnapshot(f, a, list) && IsSnapshot(g, b, list)
    ensures f == g && SameOwners(f, a, b)
  {
    forall p | p in f
      ensures p in g && f[p] == g[p] && OwnerOf(a, p) == OwnerOf(b, p)
    {
      assert EntryFor(f, a, p) in list;
      assert EntryFor(f, a, p) == EntryFor(g, b, p);
    }
    forall p | p in g
      ensures p in f
    {
      assert EntryFor(g, b, p) in list;
    }
  }

  // ---------------------------------------------------------------- lock index

  ghost predicate ValidLockFiles(files: seq<LockedFile>) {
    DistinctKeys(files, LockedPath) && forall f | f in files :: SafePath(f.path) && f.sha != NoDigest
  }

  ghost predicate IsLockIndex(files: seq<LockedFile>, index: Owners) {
    (forall f | f in files :: f.path in index && index[f.path] == f) &&
    (forall p | p in index :: index[p] in files && index[p].path == p)
  }

  method LockedFilesByPath(files: seq<LockedFile>) returns (r: Result<Owners, Error>)
    ensures r.Ok? <==> ValidLockFiles(files)
    ensures r.Ok? ==> IsLockIndex(files, r.value)
    ensures r.Err? ==> r.error == InvalidInput
  {
    var values: Owners := map[];
    for i := 0 to |files|
      invariant ValidLockFiles(files[..i])
      invariant IsLockIndex(files[..i], values)
    {
      var file := files[i];
      assert files[..i + 1] == files[..i] + [file];
      if !SafePath(file.path) || file.sha == NoDigest {
        assert file in files;
        return Err(InvalidInput);
      }
      if file.path in values {
        var k :| 0 <= k < i && files[..i][k] == values[file.path];
        assert LockedPath(files[k]) == LockedPath(files[i]);
        return Err(InvalidInput);
      }
      values := values[file.path := file];
    }
    assert files[..|files|] == files;
    return Ok(values);
  }

  lemma LockIndexUnique(files: seq<LockedFile>, a: Owners, b: Owners)
    requires IsLockIndex(files, a) && IsLockIndex(files, b)
    ensures a == b
  {
    assert forall p | p in a :: a[p] in files && p in b;
    assert forall p | p in b :: b[p] in files && p in a;
  }

  // ---------------------------------------------------------------- inspection

  predicate AllSafe(files: Files) {
    forall p | p in files :: SafePath(p)
  }

  /** Walks the target, reads every file and lists it under the owner the lock gives it. */
  method InspectTarget(fs: Filesystem, lockFiles: seq<LockedFile>) returns (r: Result<TargetSnapshot, Error>)
    modifies fs`faults, fs`seen
    ensures fs.faults >= old(fs.faults)
    ensures fs.seen == if r.Ok? then old(fs.seen) + [fs.tree.files] else old(fs.seen)
    ensures r.Ok? ==> ValidLockFiles(lockFiles) && AllSafe(fs.tree.files) && r.value.checksum == ChecksumOf(r.value.files) &&
                      forall owners :: IsLockIndex(lockFiles, owners) ==> IsSnapshot(fs.tree.files, owners, r.value.files)
    ensures r.Err? && fs.faults == old(fs.faults) ==> !ValidLockFiles(lockFiles) || !AllSafe(fs.tree.files)
    ensures r.Err? ==> r.error == TargetUnsafe || r.error == InvalidInput
  {
    var rooted := fs.StatRoot();
    if !rooted {
      return Err(TargetUnsafe);
    }
    var indexed := LockedFilesByPath(lockFiles);
    if indexed.Err? {
      return Err(indexed.error);
    }
    var locked := indexed.value;
    var pending := fs.tree.files.Keys;
    var files: seq<ExistingFile> := [];
    while pending != {}
      invariant pending <= fs.tree.files.Keys && fs.faults >= old(fs.faults) && fs.seen == old(fs.seen)
      invariant Listed(fs.tree.files, locked, pending, files)
      decreases pending
    {
      var p :| p in pending;
      if !SafePath(p) {
        return Err(TargetUnsafe);
      }
      var content := fs.ReadFile(p);
      if content.Err? {
        return Err(TargetUnsafe);
      }
      ghost var entry := EntryFor(fs.tree.files, locked, p);
      ListedStep(fs.tree.files, locked, pending, files, p);
      files := files + [ExistingFile(p, OwnerOf(locked, p), Sha256(content.value))];
      pending := pending - {p};
    }
    var sorted := Sort(files, FilePath);
    ListedSorted(fs.tree.files, locked, files, sorted);
    forall owners | IsLockIndex(lockFiles, owners)
      ensures owners == locked
    {
      LockIndexUnique(lockFiles, owners, locked);
    }
    fs.seen := fs.seen + [fs.tree.files];
    return Ok(TargetSnapshot(sorted, ChecksumOf(sorted)));
  }

  /** The walk so far: every path no longer pending is listed once, correctly, and is safe. */
  ghost predicate Listed(files: Files, owners: Owners, pending: set<Path>, list: seq<ExistingFile>) {
    DistinctKeys(list, FilePath) &&
    (forall e | e in list :: e.path in files && e.path !in pending && SafePath(e.path) && e == EntryFor(files, owners, e.path)) &&
    (forall p | p in files && p !in pending :: EntryFor(files, owners, p) in list)
  }

  lemma ListedStep(files: Files, owners: Owners, pending: set<Path>, list: seq<ExistingFile>, p: Path)
    requires Listed(files, owners, pending, list) && p in pending && p in files && SafePath(p)
    ensures Listed(files, owners, pending - {p}, list + [EntryFor(files, owners, p)])
  {
    var more := list + [EntryFor(files, owners, p)];
    assert forall i | 0 <= i < |list| :: list[i] in list;
    assert more[|list|] == EntryFor(files, owners, p);
    forall q | q in files && q !in pending - {p}
      ensures EntryFor(files, owners, q) in more
    {
      if q != p {
        assert EntryFor(files, owners, q) in list;
      }
    }
  }

  lemma ListedSorted(files: Files, owners: Owners, list: seq<ExistingFile>, sorted: seq<ExistingFile>)
    requires Listed(files, owners, {}, list) && IsSortOf(sorted, list, FilePath)
    ensures IsSnapshot(files, owners, sorted) && AllSafe(files)
  {
    SortOfDistinctIsStrict(sorted, list, FilePath);
    SortKeepsMembers(sorted, list, FilePath);
    forall p | p in files
      ensures SafePath(p)
    {
      assert EntryFor(files, owners, p) in list;
    }
  }

  // ---------------------------------------------------------------- verification against an expected snapshot

  function LocksOf(expected: seq<ExistingFile>): (r: seq<LockedFile>)
    ensures |r| == |expected|
    ensures forall i | 0 <= i < |expected| :: r[i] == BareLock(expected[i].path, expected[i].ownership, expected[i].sha)
  {
    seq(|expected|, i requires 0 <= i < |expected| => BareLock(expected[i].path, expected[i].ownership, expected[i].sha))
  }

  /** The files are listed by `list`, under some lock. */
  ghost predicate Matches(files: Files, list: seq<ExistingFile>) {
    exists owners :: IsSnapshot(files, owners, list)
  }

  /** Two file maps with one snapshot are the same map. */
  lemma MatchesDetermines(f: Files, g: Files, list: seq<ExistingFile>)
    requires Matches(f, list) && Matches(g, list)
    ensures f == g
  {
    var a :| IsSnapshot(f, a, list);
    var b :| IsSnapshot(g, b, list);
    SnapshotDetermines(f, a, g, b, list);
  }

  /** A snapshot can serve as its own lock. */
  lemma OwnLock(files: Files, list: seq<ExistingFile>, index: Owners)
    requires Matches(files, list) && IsLockIndex(LocksOf(list), index)
    ensures IsSnapshot(files, index, list)
  {
    var owners :| IsSnapshot(files, owners, list);
    forall p | p in files
      ensures EntryFor(files, index, p) == EntryFor(files, owners, p)
    {
      var e := EntryFor(files, owners, p);
      assert e in list;
      var k :| 0 <= k < |list| && list[k] == e;
      assert LocksOf(list)[k] in LocksOf(list);
    }
  }

  lemma OwnLockValid(files: Files, list: seq<ExistingFile>)
    requires Matches(files, list) && AllSafe(files)
    ensures ValidLockFiles(LocksOf(list))
  {
    var owners :| IsSnapshot(files, owners, list);
    var locks := LocksOf(list);
    forall i | 0 <= i < |locks|
      ensures SafePath(locks[i].path) && locks[i].sha != NoDigest
    {
      assert list[i] in list;
    }
    forall i, j | 0 <= i < j < |locks|
      ensures LockedPath(locks[i]) != LockedPath(locks[j])
    {
      assert Less(FilePath(list[i]), FilePath(list[j]));
      LessTrichotomy(list[i].path, list[j].path);
    }
  }

  /** Inspects the target under the ownership the expected list records, and demands that very list. */
  method InspectWithKnownOwnership(fs: Filesystem, expected: seq<ExistingFile>) returns (r: Result<TargetSnapshot, Error>)
    modifies fs`faults, fs`seen
    ensures fs.faults >= old(fs.faults) && old(fs.seen) <= fs.seen
    ensures r.Ok? ==> fs.seen == old(fs.seen) + [fs.tree.files]
    ensures r.Ok? ==> Matches(fs.tree.files, expected) && AllSafe(fs.tree.files) &&
                      r.value == TargetSnapshot(expected, ChecksumOf(expected))
    ensures r.Err? && fs.faults == old(fs.faults) ==> !Matches(fs.tree.files, expected) || !AllSafe(fs.tree.files)
    ensures r.Err? ==> r.error in {TargetUnsafe, InvalidInput, TargetChanged}
  {
    var locks := LocksOf(expected);
    ghost var sound := Matches(fs.tree.files, expected) && AllSafe(fs.tree.files);
    if sound {
      OwnLockValid(fs.tree.files, expected);
    }
    ghost var index := SomeIndex(locks);
    var actual := InspectTarget(fs, locks);
    if actual.Err? {
      return actual;
    }
    assert IsSnapshot(fs.tree.files, index, actual.value.files);
    if sound {
      OwnLock(fs.tree.files, expected, index);
      SnapshotUnique(fs.tree.files, index, index, expected, actual.value.files);
    }
    if actual.value.files != expected {
      return Err(TargetChanged);
    }
    return actual;
  }

  /** The target is exactly as the expected snapshot says. */
  ghost predicate AsExpected(files: Files, expected: TargetSnapshot) {
    Matches(files, expected.files) && AllSafe(files) && expected.checksum == ChecksumOf(expected.files)
  }

  method VerifySnapshot(fs: Filesystem, expected: TargetSnapshot) returns (failure: Option<Error>)
    modifies fs`faults, fs`seen
    ensures fs.faults >= old(fs.faults) && old(fs.seen) <= fs.seen
    ensures failure.None? ==> fs.seen == old(fs.seen) + [fs.tree.files]
    ensures failure.None? ==> AsExpected(fs.tree.files, expected)
    ensures failure.Some? && fs.faults == old(fs.faults) ==> !AsExpected(fs.tree.files, expected)
    ensures failure.Some? ==> failure.value in {TargetUnsafe, InvalidInput, TargetChanged}
  {
    var actual := InspectWithKnownOwnership(fs, expected.files);
    if actual.Err? {
      return Some(actual.error);
    }
    return if actual.value.checksum == expected.checksum then None else Some(TargetChanged);
  }

  ghost function SomeIndex(files: seq<LockedFile>): (index: Owners)
    ensures ValidLockFiles(files) ==> IsLockIndex(files, index)
  {
    if exists index :: IsLockIndex(files, index) then
      var index :| IsLockIndex(files, index); index
    else
      IndexExists(files);
      map[]
  }

  lemma {:induction false} IndexExists(files: seq<LockedFile>)
    ensures ValidLockFiles(files) ==> exists index :: IsLockIndex(files, index)
  {
    if files == [] {
      assert IsLockIndex(files, map[]);
    } else if ValidLockFiles(files) {
      var n := |files| - 1;
      DistinctPrefix(files, n, LockedPath);
      IndexExists(files[..n]);
      var index :| IsLockIndex(files[..n], index);
      IndexExtends(files, index);
    }
  }

  lemma IndexExtends(files: seq<LockedFile>, index: Owners)
    requires files != [] && DistinctKeys(files, LockedPath) && IsLockIndex(files[..|files| - 1], index)
    ensures IsLockIndex(files, index[files[|files| - 1].path := files[|files| - 1]])
  {
    var n := |files| - 1;
    assert files == files[..n] + [files[n]];
    NotInPrefix(files, n, LockedPath);
    assert forall f | f in files[..n] :: LockedPath(f) == f.path;
  }
}
