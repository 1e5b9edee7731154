/**
 What a prepared change set leaves alone: how it splits the inspected target, why user-owned bytes survive every
 outcome of an execution, and why the predicted, the inspected and the published snapshot are one list.
 */
module Conservation {
  import opened Digests
  import opened Ordering
  import opened Paths
  import opened Region
  import opened Model
  import opened Overlay
  import opened Disk
  import opened Inspect
  import opened Target
  import opened Snapshots
  import opened Commit
  import opened Artifacts
  import opened ArtifactStore
  import opened Executor

  // ---------------------------------------------------------------- how a change set splits the target

  predicate Touches(changes: seq<FileChange>, p: Path) {
    exists c | c in changes :: c.path == p
  }

  /** A file that is there is changed or confirmed by some change exactly if it is managed. */
  lemma ManagedIsChanged(base: Files, locked: Owners, request: Request, rendered: seq<RenderedFile>, p: PreparedChangeSet, path: Path)
    requires IsPrepared(base, locked, request, rendered, p) && NoneUnset(p.changes) && path in base
    ensures Touches(p.changes, path) <==> Managed(OwnerOf(locked, path))
    ensures forall c | c in p.changes && c.path == path :: c.ownership == OwnerOf(locked, path) && c.action != Created
  {
    forall c | c in p.changes && c.path == path
      ensures c.ownership == OwnerOf(locked, path) && Managed(c.ownership) && c.action != Created
    {
      var o :| o in request.desiredOutputs && FromOutput(c, o, rendered, base, locked);
      OneChangeFits(c, o, rendered, base, locked);
    }
    if Managed(OwnerOf(locked, path)) {
      assert EntryFor(base, locked, path) in p.snapshot.files;
      var o :| o in request.desiredOutputs && o.path == path;
      assert Covered(o, p.changes, rendered, base, locked);
      var c :| c in p.changes && FromOutput(c, o, rendered, base, locked);
      OneChangeFits(c, o, rendered, base, locked);
    }
  }

  predicate UserOwned(e: ExistingFile) {
    e.ownership == Custom || e.ownership == Forked
  }

  /** The snapshot splits into the preserved files, exactly the user-owned ones, and the files some change is about. */
  ghost predicate SplitsSnapshot(p: PreparedChangeSet) {
    (forall e :: e in p.preserved <==> e in p.snapshot.files && UserOwned(e)) &&
    forall e | e in p.snapshot.files :: Touches(p.changes, e.path) <==> e !in p.preserved
  }

  lemma SnapshotSplits(base: Files, locked: Owners, request: Request, rendered: seq<RenderedFile>, p: PreparedChangeSet)
    requires IsPrepared(base, locked, request, rendered, p) && NoneUnset(p.changes)
    ensures SplitsSnapshot(p)
  {
    forall e | e in p.snapshot.files
      ensures Touches(p.changes, e.path) <==> e !in p.preserved
    {
      ManagedIsChanged(base, locked, request, rendered, p, e.path);
    }
  }

  /** Exactly the created paths were free. */
  ghost predicate CreatesFreePaths(p: PreparedChangeSet) {
    forall c | c in p.changes :: c.action == Created <==> c.path !in SnapshotPaths(p.snapshot.files)
  }

  function SnapshotPaths(list: seq<ExistingFile>): set<Path> {
    set e | e in list :: e.path
  }

  lemma CreatedWereFree(base: Files, locked: Owners, p: PreparedChangeSet)
    requires IsSnapshot(base, locked, p.snapshot.files) && ChangesFit(base, p.changes)
    ensures CreatesFreePaths(p)
  {
    forall c | c in p.changes
      ensures c.path in base <==> c.path in SnapshotPaths(p.snapshot.files)
    {
      if c.path in base {
        assert EntryFor(base, locked, c.path) in p.snapshot.files;
      }
    }
  }

  /**
   A successful preparation loses nothing and counts nothing twice: the snapshot splits into the preserved files,
   which are exactly the user-owned ones, and the files some change updates or confirms; created paths were free;
   and every desired output not locked as forked has exactly one change.
   */
  lemma PreparationConserves(base: Files, locked: Owners, request: Request, rendered: seq<RenderedFile>, p: PreparedChangeSet)
    requires IsPrepared(base, locked, request, rendered, p) && MergeSpecsValid(request)
    requires DistinctKeys(request.desiredOutputs, OutputPath)
    ensures SplitsSnapshot(p) && CreatesFreePaths(p)
    ensures forall o | o in request.desiredOutputs :: Touches(p.changes, o.path) <==> !LockedForked(locked, o.path)
    ensures DistinctKeys(p.preserved, FilePath) && DistinctKeys(p.changes, ChangePath)
  {
    AllFilledIn(base, locked, request, rendered, p);
    PreparedFits(base, locked, request, rendered, p);
    SnapshotSplits(base, locked, request, rendered, p);
    CreatedWereFree(base, locked, p);
    forall o | o in request.desiredOutputs
      ensures Touches(p.changes, o.path) <==> !LockedForked(locked, o.path)
    {
      OutputChanged(base, locked, request, rendered, p, o);
    }
  }

  lemma OutputChanged(base: Files, locked: Owners, request: Request, rendered: seq<RenderedFile>, p: PreparedChangeSet, o: OutputSpec)
    requires IsPrepared(base, locked, request, rendered, p) && NoneUnset(p.changes) && o in request.desiredOutputs
    ensures Touches(p.changes, o.path) <==> !LockedForked(locked, o.path)
  {
    if c :| c in p.changes && c.path == o.path {
      var from :| from in request.desiredOutputs && FromOutput(c, from, rendered, base, locked);
      OneChangeFits(c, from, rendered, base, locked);
    }
    if !LockedForked(locked, o.path) {
      assert Covered(o, p.changes, rendered, base, locked);
      var c :| c in p.changes && FromOutput(c, o, rendered, base, locked);
      OneChangeFits(c, o, rendered, base, locked);
    }
  }

  // ---------------------------------------------------------------- user bytes

  /** The content differs from the earlier one at most in the region between the markers. */
  ghost predicate OnlyRegionDiffers(before: Bytes, now: Bytes, m: MergeSpec) {
    exists d, body ::
      Carries(before, BeginMarker(m), EndMarker(m), d) && now == Unparse(d.(body := body), BeginMarker(m), EndMarker(m))
  }

  lemma MergeKeepsOutside(c: FileChange, o: OutputSpec, rendered: seq<RenderedFile>, files: Files, locked: Owners)
    requires FromOutput(c, o, rendered, files, locked) && c.ownership == Integration && c.path in files && c.action != Unset
    ensures o.merge.Some? && OnlyRegionDiffers(files[c.path], c.bytes, o.merge.value)
    ensures OnlyRegionDiffers(files[c.path], files[c.path], o.merge.value)
  {
    var file :| file in rendered && IsChangeFor(c, o, file, files, locked);
    var m := o.merge.value;
    SpecMarkers(m);
    var d := AcceptedIsCarried(files[c.path], BeginMarker(m), EndMarker(m), file.bytes);
    MergeOfCarried(d, BeginMarker(m), EndMarker(m), file.bytes);
    assert d.(body := d.body) == d;
  }

  /** A file no change is about has its bytes. */
  lemma UntouchedSurvives(roots: set<Path>, base: Files, changes: seq<FileChange>, now: Files, p: Path)
    requires TargetSafe(roots, base, Overlaid(base, Effective(changes)), now)
    requires p in base && !Touches(changes, p)
    ensures At(now, p) == At(base, p)
  {
    OverlaidElsewhere(base, Effective(changes), p);
  }

  /** The integration file has all its bytes outside the region its lock entry names. */
  ghost predicate RegionKept(f: LockedFile, base: Files, now: Files)
    requires f.path in base
  {
    At(now, f.path) == At(base, f.path) ||
    (f.path in now && f.merge.Some? && OnlyRegionDiffers(base[f.path], now[f.path], f.merge.value))
  }

  lemma IntegrationSurvives(roots: set<Path>, base: Files, locked: Owners, request: Request, rendered: seq<RenderedFile>,
                            changes: seq<FileChange>, now: Files, c: FileChange)
    requires TargetSafe(roots, base, Overlaid(base, Effective(changes)), now)
    requires ChangesFit(base, changes) && c in changes && c.ownership == Integration && c.path in base && c.path in locked
    requires exists o :: o in request.desiredOutputs && FromOutput(c, o, rendered, base, locked)
    ensures locked[c.path].path == c.path ==> RegionKept(locked[c.path], base, now)
  {
    var o :| o in request.desiredOutputs && FromOutput(c, o, rendered, base, locked);
    MergeKeepsOutside(c, o, rendered, base, locked);
    EffectiveDistinct(changes);
    AfterChange(base, changes, c);
    var file :| file in rendered && IsChangeFor(c, o, file, base, locked);
    assert locked[c.path].merge == o.merge;
  }

  predicate LockedManaged(previous: seq<LockedFile>, p: Path) {
    exists f | f in previous :: f.path == p && Managed(f.ownership)
  }

  /**
   The user's bytes: every file the lock does not call the generator's own - unknown, custom or forked - is as it was,
   and so is every integration file outside its region.
   */
  ghost predicate UserBytesKept(previous: seq<LockedFile>, base: Files, now: Files) {
    (forall p | p in base && !LockedManaged(previous, p) :: At(now, p) == At(base, p)) &&
    forall f | f in previous && f.ownership == Integration && f.path in base :: RegionKept(f, base, now)
  }

  /** On every exit of an attempt - success, failed commit, failed rollback - the user's bytes are kept. */
  lemma UserBytesSurvive(base: Files, previous: seq<LockedFile>, request: Request, rendered: seq<RenderedFile>, run: Run, now: Files)
    requires run.attempted && MadeFor(base, previous, request, rendered, run)
    requires NoneUnset(run.prepared.changes) || now == base
    requires TargetSafe(WorkRoots(request), base, After(base, run), now)
    ensures UserBytesKept(previous, base, now)
  {
    var changes, locked := run.prepared.changes, run.locked;
    if NoneUnset(changes) {
      forall p | p in base && !LockedManaged(previous, p)
        ensures At(now, p) == At(base, p)
      {
        assert p in locked ==> locked[p] in previous;
        ManagedIsChanged(base, locked, request, rendered, run.prepared, p);
        UntouchedSurvives(WorkRoots(request), base, changes, now, p);
      }
      forall f | f in previous && f.ownership == Integration && f.path in base
        ensures RegionKept(f, base, now)
      {
        assert locked[f.path] == f;
        ManagedIsChanged(base, locked, request, rendered, run.prepared, f.path);
        var c :| c in changes && c.path == f.path;
        IntegrationSurvives(WorkRoots(request), base, locked, request, rendered, changes, now, c);
      }
    }
  }

  /** The same, said of the call: whatever an execution comes to, the user's bytes survive. */
  method ExecuteSparingUserBytes(fs: Filesystem, store: Store, contracts: Contracts, request: Request, plan: Option<Plan>, evidence: map<Path, Bytes>,
                                 rendered: Result<seq<RenderedFile>, Error>, previous: seq<LockedFile>, previousPresent: bool)
    returns (outcome: Outcome, errors: Errors)
    requires Closed(fs.tree)
    modifies fs, store
    ensures UserBytesKept(previous, old(fs.tree.files), fs.tree.files)
  {
    ghost var t0, run := fs.tree, NoRun;
    outcome, errors, run := Execute(fs, store, contracts, request, plan, evidence, rendered, previous, previousPresent);
    KeptMeansSpared(t0, previous, request, rendered, run, fs.tree, outcome.commit, errors);
  }

  lemma KeptMeansSpared(t0: Tree, previous: seq<LockedFile>, request: Request, rendered: Result<seq<RenderedFile>, Error>, run: Run,
                        t: Tree, r: CommitResult, errors: Errors)
    requires TargetKept(request, t0, run, t, r, errors)
    requires run.attempted ==> rendered.Ok? && MadeFor(t0.files, previous, request, rendered.value, run)
    ensures UserBytesKept(previous, t0.files, t.files)
  {
    if run.attempted {
      UserBytesSurvive(t0.files, previous, request, rendered.value, run, t.files);
    }
  }

  /** With no change inside the working directories, an unchanged target is literally unchanged if and only if nothing was left in them. */
  lemma UnchangedLiterally(request: Request, base: Files, changes: seq<FileChange>, now: Files)
    requires TargetSafe(WorkRoots(request), base, Overlaid(base, Effective(changes)), now)
    requires Project(now, WorkRoots(request)) == Project(base, WorkRoots(request))
    requires forall c | c in changes :: !Hidden(WorkRoots(request), c.path)
    ensures now == base <==> forall p | p in now && Hidden(WorkRoots(request), p) :: p in base
  {
    if forall p | p in now && Hidden(WorkRoots(request), p) :: p in base {
      forall p
        ensures At(now, p) == At(base, p)
      {
        if !Hidden(WorkRoots(request), p) {
          ProjectAt(now, WorkRoots(request), p);
          ProjectAt(base, WorkRoots(request), p);
        } else {
          assert !ChangesPath(Effective(changes), p);
          OverlaidElsewhere(base, Effective(changes), p);
        }
      }
      SameEverywhere(now, base);
    }
  }

  // ---------------------------------------------------------------- three snapshots

  function EntryOf(f: LockedFile): ExistingFile { ExistingFile(f.path, f.ownership, f.sha) }

  /** A snapshot entry is about a change or preserved. */
  lemma PredictedSplit(base: Files, locked: Owners, request: Request, rendered: seq<RenderedFile>, p: PreparedChangeSet, e: ExistingFile)
    requires IsPrepared(base, locked, request, rendered, p) && NoneUnset(p.changes)
    ensures Predicted(p.snapshot.files, p.changes, e) <==> (exists c :: c in p.changes && e == EntryOfChange(c)) || e in p.preserved
  {
    SnapshotSplits(base, locked, request, rendered, p);
    assert Touches(p.changes, e.path) <==> ChangesPath(p.changes, e.path);
  }

  /** A lock entry is a change's result or a preserved file. */
  lemma ListedComesFrom(desired: seq<OutputSpec>, p: PreparedChangeSet, f: LockedFile)
    requires f in LockFilesFor(desired, p)
    ensures (exists c :: c in p.changes && EntryOf(f) == EntryOfChange(c)) || EntryOf(f) in p.preserved
  {
    var list, n := LockFilesFor(desired, p), |p.changes|;
    var j :| 0 <= j < |list| && list[j] == f;
    if j < n {
      assert p.changes[j] in p.changes;
    } else {
      assert p.preserved[j - n] in p.preserved;
    }
  }

  lemma LockListed(desired: seq<OutputSpec>, p: PreparedChangeSet, e: ExistingFile)
    ensures (exists f :: f in LockFilesFor(desired, p) && EntryOf(f) == e) <==>
            (exists c :: c in p.changes && e == EntryOfChange(c)) || e in p.preserved
  {
    if f :| f in LockFilesFor(desired, p) && EntryOf(f) == e {
      ListedComesFrom(desired, p, f);
    }
    if (exists c :: c in p.changes && e == EntryOfChange(c)) || e in p.preserved {
      ChangedOrKeptListed(desired, p, e);
    }
  }

  lemma ChangedOrKeptListed(desired: seq<OutputSpec>, p: PreparedChangeSet, e: ExistingFile)
    requires (exists c :: c in p.changes && e == EntryOfChange(c)) || e in p.preserved
    ensures exists f :: f in LockFilesFor(desired, p) && EntryOf(f) == e
  {
    var list, n := LockFilesFor(desired, p), |p.changes|;
    if c :| c in p.changes && e == EntryOfChange(c) {
      var i :| 0 <= i < n && p.changes[i] == c;
      assert list[i] in list && EntryOf(list[i]) == e;
    } else {
      var i :| 0 <= i < |p.preserved| && p.preserved[i] == e;
      assert list[n + i] in list && EntryOf(list[n + i]) == e;
    }
  }

  /** The lock's entries are those of the predicted snapshot. */
  lemma LockEntries(base: Files, locked: Owners, request: Request, rendered: seq<RenderedFile>, p: PreparedChangeSet,
                    files: seq<LockedFile>, final: seq<ExistingFile>, e: ExistingFile)
    requires IsPrepared(base, locked, request, rendered, p) && NoneUnset(p.changes)
    requires IsSortOf(files, LockFilesFor(request.desiredOutputs, p), LockedPath)
    requires IsPrediction(p.snapshot.files, p.changes, final)
    ensures e in EntriesOf(files) <==> e in final
  {
    SortKeepsMembers(files, LockFilesFor(request.desiredOutputs, p), LockedPath);
    PredictedSplit(base, locked, request, rendered, p, e);
    LockListed(request.desiredOutputs, p, e);
    EntriesMembers(files, e);
  }

  lemma EntriesMembers(files: seq<LockedFile>, e: ExistingFile)
    ensures e in EntriesOf(files) <==> exists f :: f in files && EntryOf(f) == e
  {
    if f :| f in files && EntryOf(f) == e {
      var i :| 0 <= i < |files| && files[i] == f;
      assert EntriesOf(files)[i] == e;
    }
    if e in EntriesOf(files) {
      var i :| 0 <= i < |files| && EntriesOf(files)[i] == e;
      assert files[i] in files;
    }
  }

  /** A list with the entries of the lock, inspected under that lock, is the snapshot. */
  lemma InspectedUnderLock(after: Files, files: seq<LockedFile>, owners: Owners, final: seq<ExistingFile>)
    requires Matches(after, final) && IsLockIndex(files, owners)
    requires forall e :: e in EntriesOf(files) <==> e in final
    ensures IsSnapshot(after, owners, final)
  {
    var some :| IsSnapshot(after, some, final);
    forall p | p in after
      ensures EntryFor(after, owners, p) == EntryFor(after, some, p)
    {
      var e := EntryFor(after, some, p);
      assert e in EntriesOf(files);
      var i :| 0 <= i < |files| && EntriesOf(files)[i] == e;
      assert files[i] in files;
    }
  }

  /**
   Three snapshots are the same sorted list: the one predicted for the change set, the one read back from the
   published lock, and the one inspected on disk after the commit under that lock.
   */
  lemma ThreeSnapshotsAgree(base: Files, locked: Owners, request: Request, rendered: seq<RenderedFile>, p: PreparedChangeSet,
                            files: seq<LockedFile>, predicted: seq<ExistingFile>, loaded: seq<ExistingFile>,
                            owners: Owners, inspected: seq<ExistingFile>)
    requires IsPrepared(base, locked, request, rendered, p) && ChangesFit(base, p.changes) && DigestsHold(p.changes)
    requires DistinctKeys(p.preserved, FilePath)
    requires IsSortOf(files, LockFilesFor(request.desiredOutputs, p), LockedPath)
    requires IsPrediction(p.snapshot.files, p.changes, predicted)
    requires IsSortOf(loaded, EntriesOf(files), FilePath)
    requires IsLockIndex(files, owners) && IsSnapshot(Overlaid(base, Effective(p.changes)), owners, inspected)
    ensures predicted == loaded == inspected
  {
    var after := Overlaid(base, Effective(p.changes));
    EffectiveDistinct(p.changes);
    PredictionComesTrue(base, locked, p.snapshot.files, p.changes, predicted);
    forall e
      ensures e in EntriesOf(files) <==> e in predicted
    {
      LockEntries(base, locked, request, rendered, p, files, predicted, e);
    }
    InspectedUnderLock(after, files, owners, predicted);
    SnapshotUnique(after, owners, owners, predicted, inspected);
    LockDistinct(base, locked, request, rendered, p, files);
    SortOfDistinctIsStrict(loaded, EntriesOf(files), FilePath);
    SortKeepsMembers(loaded, EntriesOf(files), FilePath);
    StrictlySortedUnique(loaded, predicted, FilePath);
  }

  /** A preserved file is not among the changed ones. */
  lemma PreservedUntouched(base: Files, locked: Owners, request: Request, rendered: seq<RenderedFile>, p: PreparedChangeSet,
                           c: FileChange, e: ExistingFile)
    requires IsPrepared(base, locked, request, rendered, p) && NoneUnset(p.changes) && c in p.changes && e in p.preserved
    ensures c.path != e.path
  {
    assert e in p.snapshot.files;
    ManagedIsChanged(base, locked, request, rendered, p, e.path);
  }

  lemma LockDistinct(base: Files, locked: Owners, request: Request, rendered: seq<RenderedFile>, p: PreparedChangeSet, files: seq<LockedFile>)
    requires IsPrepared(base, locked, request, rendered, p) && ChangesFit(base, p.changes)
    requires DistinctKeys(p.preserved, FilePath)
    requires IsSortOf(files, LockFilesFor(request.desiredOutputs, p), LockedPath)
    ensures DistinctKeys(files, LockedPath) && DistinctKeys(EntriesOf(files), FilePath)
  {
    forall c, e | c in p.changes && e in p.preserved
      ensures c.path != e.path
    {
      PreservedUntouched(base, locked, request, rendered, p, c, e);
    }
    ListedDistinct(request.desiredOutputs, p);
    DistinctKeysPermute(LockFilesFor(request.desiredOutputs, p), files, LockedPath);
    EntriesDistinct(files);
  }

  lemma ListedDistinct(desired: seq<OutputSpec>, p: PreparedChangeSet)
    requires DistinctKeys(p.changes, ChangePath) && DistinctKeys(p.preserved, FilePath)
    requires forall c, e | c in p.changes && e in p.preserved :: c.path != e.path
    ensures DistinctKeys(LockFilesFor(desired, p), LockedPath)
  {
    var list, n := LockFilesFor(desired, p), |p.changes|;
    forall i, j | 0 <= i < j < |list|
      ensures LockedPath(list[i]) != LockedPath(list[j])
    {
      if j < n {
        assert ChangePath(p.changes[i]) != ChangePath(p.changes[j]);
      } else if i >= n {
        assert FilePath(p.preserved[i - n]) != FilePath(p.preserved[j - n]);
      } else {
        assert p.changes[i] in p.changes && p.preserved[j - n] in p.preserved;
      }
    }
  }

  lemma EntriesDistinct(files: seq<LockedFile>)
    requires DistinctKeys(files, LockedPath)
    ensures DistinctKeys(EntriesOf(files), FilePath)
  {
    forall i, j | 0 <= i < j < |files|
      ensures FilePath(EntriesOf(files)[i]) != FilePath(EntriesOf(files)[j])
    {
      assert LockedPath(files[i]) != LockedPath(files[j]);
    }
  }
}
