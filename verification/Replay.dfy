/**
 Executing a request again: once a generation is published and its target undisturbed, the same request is answered
 from the published documents, with the same snapshot and without writing anything.
 */
module Replay {
  import opened Digests
  import opened Ordering
  import opened Paths
  import opened Model
  import opened Overlay
  import opened Disk
  import opened Inspect
  import opened Target
  import opened Snapshots
  import opened Commit
  import opened Artifacts
  import opened ArtifactStore
  import opened Conservation
  import opened Executor

  /** Every entry of a generation's lock is usable as a lock entry again. */
  lemma LockUsable(base: Files, locked: Owners, request: Request, rendered: seq<RenderedFile>, p: PreparedChangeSet, files: seq<LockedFile>)
    requires IsPrepared(base, locked, request, rendered, p) && ChangesFit(base, p.changes) && DigestsHold(p.changes) && AllSafe(base)
    requires DistinctKeys(p.preserved, FilePath) && forall c | c in p.changes :: SafePath(c.path)
    requires IsSortOf(files, LockFilesFor(request.desiredOutputs, p), LockedPath)
    ensures ValidLockFiles(files)
  {
    LockDistinct(base, locked, request, rendered, p, files);
    SortKeepsMembers(files, LockFilesFor(request.desiredOutputs, p), LockedPath);
    forall f | f in files
      ensures SafePath(f.path) && f.sha != NoDigest
    {
      ListedComesFrom(request.desiredOutputs, p, f);
      if EntryOf(f) in p.preserved {
        assert EntryOf(f) in p.snapshot.files;
      }
    }
  }

  /** The published documents of an execution can be loaded, and read back with the very snapshot that was predicted. */
  lemma PublishedLoads(base: Files, previous: seq<LockedFile>, request: Request, rendered: seq<RenderedFile>, plan: Plan, run: Run,
                       b: Bundle, d: Directory)
    requires MadeFor(base, previous, request, rendered, run) && Reversible(base, run.prepared, b, Some(d))
    requires IsBundleFor(request, plan, run.prepared, b)
    requires IsPrediction(run.prepared.snapshot.files, run.prepared.changes, b.finalSnapshot.files)
    requires b.finalSnapshot.checksum == ChecksumOf(b.finalSnapshot.files)
    ensures Loadable(d)
    ensures forall again :: ReadsBack(d, again) ==> again.finalSnapshot == b.finalSnapshot
  {
    var p := run.prepared;
    DistinctPaths(request.desiredOutputs);
    LockUsable(base, run.locked, request, rendered, p, b.lock.files);
    assert InBundle(b, ManifestName) && InBundle(b, LockName) && InBundle(b, RollbackName) && InBundle(b, JournalName) && InBundle(b, ResultName);
    EvidencePublished(request, plan, p, b, d);
    forall again | ReadsBack(d, again)
      ensures again.finalSnapshot == b.finalSnapshot
    {
      assert again.lock == b.lock;
      LoadedIsPredicted(base, run.locked, request, rendered, p, b.lock.files, b.finalSnapshot.files, again.finalSnapshot.files);
    }
  }

  lemma EvidencePublished(request: Request, plan: Plan, p: PreparedChangeSet, b: Bundle, d: Directory)
    requires IsBundleFor(request, plan, p, b) && HoldsBundle(d, b)
    ensures EvidenceReadable(d, b.manifest.evidence)
  {
    SortKeepsMembers(b.manifest.evidence, request.context.evidence, EvidenceId);
    forall e | e in b.manifest.evidence
      ensures EvidenceName(e.path) in d && d[EvidenceName(e.path)].Blob? && Sha256(d[EvidenceName(e.path)].bytes) == e.sha
    {
      assert InBundle(b, EvidenceName(e.path));
    }
  }

  /** The snapshot read back from the lock is the predicted one. */
  lemma LoadedIsPredicted(base: Files, locked: Owners, request: Request, rendered: seq<RenderedFile>, p: PreparedChangeSet,
                          files: seq<LockedFile>, predicted: seq<ExistingFile>, loaded: seq<ExistingFile>)
    requires IsPrepared(base, locked, request, rendered, p) && ChangesFit(base, p.changes) && DigestsHold(p.changes)
    requires DistinctKeys(p.preserved, FilePath) && ValidLockFiles(files)
    requires IsSortOf(files, LockFilesFor(request.desiredOutputs, p), LockedPath)
    requires IsPrediction(p.snapshot.files, p.changes, predicted) && IsSortOf(loaded, EntriesOf(files), FilePath)
    ensures loaded == predicted
  {
    EffectiveDistinct(p.changes);
    PredictionComesTrue(base, locked, p.snapshot.files, p.changes, predicted);
    forall e
      ensures e in EntriesOf(files) <==> e in predicted
    {
      LockEntries(base, locked, request, rendered, p, files, predicted, e);
    }
    var owners := SomeIndex(files);
    InspectedUnderLock(Overlaid(base, Effective(p.changes)), files, owners, predicted);
    ThreeSnapshotsAgree(base, locked, request, rendered, p, files, predicted, loaded, owners, predicted);
  }

  /** The published generation loads, with this snapshot. */
  ghost predicate LoadsWith(published: Option<Directory>, final: TargetSnapshot) {
    published.Some? && Loadable(published.value) && forall again | ReadsBack(published.value, again) :: again.finalSnapshot == final
  }

  /** What is published passes its contracts when it is loaded. */
  ghost predicate PassesAgain(published: Option<Directory>, contracts: Contracts) {
    published.Some? && forall again | ReadsBack(published.value, again) :: contracts.bundle(again)
  }

  /**
   A request executed again: nothing is written to the target or the store, and unless an operation fails the call succeeds,
   with the very snapshot of the published generation, if the target is as it was left and what is published passes its contracts.
   */
  method ExecuteAgain(fs: Filesystem, store: Store, contracts: Contracts, request: Request, plan: Option<Plan>, evidence: map<Path, Bytes>,
                      rendered: Result<seq<RenderedFile>, Error>, previous: seq<LockedFile>, previousPresent: bool, ghost final: TargetSnapshot)
    returns (second: Outcome, repeated: bool)
    requires Closed(fs.tree) && LoadsWith(store.published, final)
    modifies fs, store
    ensures fs.tree == old(fs.tree) && store.stage == old(store.stage) && store.published == old(store.published)
    ensures fs.faults >= old(fs.faults) && store.faults >= old(store.faults)
    ensures repeated ==> second.commit == Replayed && second.bundle.Some? && second.bundle.value.finalSnapshot == final
    ensures !repeated && contracts.request(request) && AsExpected(fs.tree.files, final) && PassesAgain(store.published, contracts) ==>
              fs.faults + store.faults > old(fs.faults + store.faults)
  {
    var errors;
    ghost var run;
    second, errors, run := Execute(fs, store, contracts, request, plan, evidence, rendered, previous, previousPresent);
    repeated := errors == {};
  }

  /**
   A request executed twice in a row: whatever the second call comes to, the first one's generation stays in the target
   and in the store; and if no operation fails and the first call has all it needs, it succeeds, and so does the second,
   with the same snapshot, if what the first one published passes its contracts.
   */
  method ExecuteTwice(fs: Filesystem, store: Store, contracts: Contracts, request: Request, plan: Option<Plan>, evidence: map<Path, Bytes>,
                      rendered: Result<seq<RenderedFile>, Error>, previous: seq<LockedFile>, previousPresent: bool)
    returns (first: Outcome, executed: bool, second: Outcome, repeated: bool)
    requires Closed(fs.tree) && store.published.None?
    modifies fs, store
    ensures executed ==> first.bundle.Some? && AsExpected(fs.tree.files, first.bundle.value.finalSnapshot) &&
                         store.published.Some? && HoldsBundle(store.published.value, first.bundle.value)
    ensures repeated ==> executed && second.commit == Replayed && second.bundle.Some? &&
                         second.bundle.value.finalSnapshot == first.bundle.value.finalSnapshot
    ensures fs.faults + store.faults == old(fs.faults + store.faults) && old(store.stage).None? &&
            Runnable(old(fs.tree), contracts, request, plan, evidence, rendered, previous, previousPresent) ==>
              executed && (PassesAgain(store.published, contracts) ==> repeated)
  {
    ghost var base, run := fs.tree.files, NoRun;
    var errors;
    first, errors, run := Execute(fs, store, contracts, request, plan, evidence, rendered, previous, previousPresent);
    executed, second, repeated := errors == {}, first, false;
    if executed {
      PublishedLoads(base, previous, request, rendered.value, plan.value, run, first.bundle.value, store.published.value);
      second, repeated := ExecuteAgain(fs, store, contracts, request, plan, evidence, rendered, previous, previousPresent,
                                       first.bundle.value.finalSnapshot);
    }
  }
}
