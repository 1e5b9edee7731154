/**
 One generation after another: the lock a generation publishes describes its target, edits that keep to the user's side
 leave that description true, and under such a lock the next generation meets no ownership conflict. Also what the files
 of a generated project hold: the renderings of the plan's locked sources.
 */
module Upgrade {
  import opened Digests
  import opened Ordering
  import opened Paths
  import opened Region
  import opened Model
  import opened Overlay
  import opened Disk
  import opened Inspect
  import opened Target
  import opened Snapshots
  import opened Commit
  import opened Artifacts
  import opened ArtifactStore
  import opened Conservation
  import opened Replay
  import opened Acceptance
  import Template
  import opened Renderer
  import Executor

  // ---------------------------------------------------------------- what a lock says of a target

  /** The generator's own content is where the entry says: the whole file, or the body of its region. */
  ghost predicate EntryHolds(files: Files, f: LockedFile) {
    f.path in files &&
    (f.ownership == Generated ==> f.sha == Sha256(files[f.path])) &&
    (f.ownership == Integration ==> f.merge.Some? && RegionHolds(files[f.path], f.merge.value, f.generatedSha))
  }

  ghost predicate LockHolds(files: Files, previous: seq<LockedFile>) {
    forall f | f in previous && Managed(f.ownership) :: EntryHolds(files, f)
  }

  /** No rendered region holds one of its own markers. */
  ghost predicate RendersNoMarker(rendered: seq<RenderedFile>) {
    forall file | file in rendered && file.spec.ownership == Integration && ValidMergeSpec(file.spec.merge) ::
      MarkerFree(file.bytes, BeginMarker(file.spec.merge.value), EndMarker(file.spec.merge.value))
  }

  // ---------------------------------------------------------------- a generation's lock describes its target

  /** Merged or created, the file holds the rendering in its region, and the change records that body's digest. */
  lemma RegionAfterChange(c: FileChange, o: OutputSpec, file: RenderedFile, files: Files, locked: Owners)
    requires IsChangeFor(c, o, file, files, locked) && o.ownership == Integration
    requires MarkerFree(file.bytes, BeginMarker(o.merge.value), EndMarker(o.merge.value))
    ensures RegionHolds(c.bytes, o.merge.value, c.generatedSha)
  {
    var m := o.merge.value;
    SpecMarkers(m);
    if c.path in files {
      var d := AcceptedIsCarried(files[c.path], BeginMarker(m), EndMarker(m), file.bytes);
      PutGet(d, BeginMarker(m), EndMarker(m), file.bytes);
      MergeOfCarried(d, BeginMarker(m), EndMarker(m), file.bytes);
    } else {
      CreatedIsCarried(file.bytes, m);
      CreatedFile(file.bytes, m);
    }
  }

  /** After the commit each path a change is about holds the change's bytes, replaced or confirmed. */
  lemma ChangeInPlace(base: Files, locked: Owners, rendered: seq<RenderedFile>, changes: seq<FileChange>, c: FileChange, o: OutputSpec)
    requires ChangesFit(base, changes) && c in changes && RenderedSoundly(rendered) && FromOutput(c, o, rendered, base, locked)
    ensures At(Overlaid(base, Effective(changes)), c.path) == Some(c.bytes) && c.sha == Sha256(c.bytes)
  {
    EffectiveDistinct(changes);
    AfterChange(base, changes, c);
    var file :| file in rendered && IsChangeFor(c, o, file, base, locked);
  }

  lemma EntryAfterChange(base: Files, locked: Owners, rendered: seq<RenderedFile>, changes: seq<FileChange>, c: FileChange, o: OutputSpec)
    requires ChangesFit(base, changes) && c in changes && RenderedSoundly(rendered) && RendersNoMarker(rendered)
    requires FromOutput(c, o, rendered, base, locked)
    ensures EntryHolds(Overlaid(base, Effective(changes)), LockOfChange(c, o))
  {
    ChangeInPlace(base, locked, rendered, changes, c, o);
    var file :| file in rendered && IsChangeFor(c, o, file, base, locked);
    if c.ownership == Integration {
      RegionAfterChange(c, o, file, base, locked);
    }
  }

  lemma GenerationHolds(base: Files, locked: Owners, request: Request, rendered: seq<RenderedFile>, p: PreparedChangeSet, files: seq<LockedFile>)
    requires IsPrepared(base, locked, request, rendered, p) && ChangesFit(base, p.changes)
    requires DistinctKeys(request.desiredOutputs, OutputPath) && RenderedSoundly(rendered) && RendersNoMarker(rendered)
    requires IsSortOf(files, LockFilesFor(request.desiredOutputs, p), LockedPath)
    ensures LockHolds(Overlaid(base, Effective(p.changes)), files)
  {
    SortKeepsMembers(files, LockFilesFor(request.desiredOutputs, p), LockedPath);
    forall f | f in files && Managed(f.ownership)
      ensures EntryHolds(Overlaid(base, Effective(p.changes)), f)
    {
      ManagedEntry(base, locked, request, rendered, p, f);
      var c :| c in p.changes && f == LockOfChange(c, OutputFor(request.desiredOutputs, c.path));
      var o :| o in request.desiredOutputs && FromOutput(c, o, rendered, base, locked);
      OneChangeFits(c, o, rendered, base, locked);
      OutputForIs(request.desiredOutputs, o);
      EntryAfterChange(base, locked, rendered, p.changes, c, o);
    }
  }

  // ---------------------------------------------------------------- user edits

  /** Generated files are left alone, integration files edited outside their regions; everything else is the user's. */
  ghost predicate UserEdited(previous: seq<LockedFile>, before: Files, now: Files) {
    forall f | f in previous && Managed(f.ownership) && f.path in before ::
      f.path in now && (f.ownership == Generated ==> now[f.path] == before[f.path]) &&
      (f.ownership == Integration && ValidMergeSpec(f.merge) ==>
         EditedOutsideRegion(before[f.path], now[f.path], BeginMarker(f.merge.value), EndMarker(f.merge.value)))
  }

  /** Such edits leave the lock true. */
  lemma EditsKeepLock(previous: seq<LockedFile>, before: Files, now: Files)
    requires LockHolds(before, previous) && UserEdited(previous, before, now)
    ensures LockHolds(now, previous)
  {
    forall f | f in previous && Managed(f.ownership)
      ensures EntryHolds(now, f)
    {
      assert EntryHolds(before, f);
      if f.ownership == Integration {
        var begin, end := BeginMarker(f.merge.value), EndMarker(f.merge.value);
        SpecMarkers(f.merge.value);
        var c :| Carries(before[f.path], begin, end, c) && Sha256(c.body) == f.generatedSha;
        var d, e :| Carries(before[f.path], begin, end, d) && Carries(now[f.path], begin, end, e) && d.body == e.body;
        CarriedUnique(before[f.path], begin, end, c, d);
      }
    }
  }

  // ---------------------------------------------------------------- the next preparation

  /** The output carries on what the lock records at its path, or starts at a path neither the lock nor the target knows. */
  ghost predicate OutputCarriesOn(o: OutputSpec, previous: seq<LockedFile>, files: Files) {
    (forall f | f in previous && f.path == o.path ::
       f.ownership == Forked ||
       (Managed(o.ownership) && f.ownership == o.ownership && (o.ownership == Integration ==> f.merge == o.merge))) &&
    ((forall f | f in previous :: f.path != o.path) ==> Managed(o.ownership) && o.path !in files)
  }

  /** Under a true lock no content matters any more: ownership alone decides. */
  lemma OwnerAllowsExactly(o: OutputSpec, previous: seq<LockedFile>, locked: Owners, files: Files)
    requires IsLockIndex(previous, locked) && LockHolds(files, previous)
    ensures OwnerAllows(o, files, locked) <==> OutputCarriesOn(o, previous, files)
  {
    if o.path in locked {
      var f := locked[o.path];
      assert f in previous && f.path == o.path;
      assert Managed(f.ownership) ==> EntryHolds(files, f);
      assert forall g | g in previous && g.path == o.path :: g == f;
    }
  }

  /** Every output has its rendering, stays clear of protected paths and other files, and carries on; none is dropped. */
  ghost predicate OutputsCarryOn(files: Files, previous: seq<LockedFile>, request: Request, rendered: seq<RenderedFile>) {
    DistinctKeys(rendered, RenderedPath) && |rendered| == |request.desiredOutputs| &&
    (forall o | o in request.desiredOutputs ::
       (exists f :: f in rendered && f.spec == o) && !AnyOverlap(o.path, request.protectedPaths) && NothingOverlaps(files, o.path) &&
       OutputCarriesOn(o, previous, files)) &&
    forall f | f in previous && Managed(f.ownership) :: f.path in DesiredPaths(request)
  }

  /** The request was made for this very target under this lock. */
  ghost predicate MadeForTarget(files: Files, previous: seq<LockedFile>, request: Request) {
    ValidLockFiles(previous) && AllSafe(files) &&
    exists locked, list :: IsLockIndex(previous, locked) && IsSnapshot(files, locked, list) && RequestFits(request, list)
  }

  /**
   Under a true lock - one just published, with edits only on the user's side since - the preparation of the next
   generation is free of conflicts exactly if its outputs carry on the earlier ones.
   */
  lemma UpgradePreparable(files: Files, previous: seq<LockedFile>, request: Request, rendered: seq<RenderedFile>)
    requires LockHolds(files, previous)
    ensures Preparable(files, previous, request, rendered) <==>
              MadeForTarget(files, previous, request) && OutputsCarryOn(files, previous, request, rendered)
  {
    if Preparable(files, previous, request, rendered) {
      var locked, list :| IsLockIndex(previous, locked) && PreparableUnder(files, locked, list, request, rendered);
      CarriesOnWhenSettleable(files, previous, request, rendered, locked);
    }
    if MadeForTarget(files, previous, request) && OutputsCarryOn(files, previous, request, rendered) {
      var locked, list :| IsLockIndex(previous, locked) && IsSnapshot(files, locked, list) && RequestFits(request, list);
      CarriesOnWhenSettleable(files, previous, request, rendered, locked);
      assert PreparableUnder(files, locked, list, request, rendered);
    }
  }

  lemma CarriesOnWhenSettleable(files: Files, previous: seq<LockedFile>, request: Request, rendered: seq<RenderedFile>, locked: Owners)
    requires IsLockIndex(previous, locked) && LockHolds(files, previous)
    ensures AllSettleable(request, rendered, files, locked) && NoneRemoved(locked, DesiredPaths(request)) <==>
              OutputsCarryOn(files, previous, request, rendered)
  {
    assert NoneRemoved(locked, DesiredPaths(request)) <==> forall f | f in previous && Managed(f.ownership) :: f.path in DesiredPaths(request) by {
      forall q | q in locked
        ensures locked[q] in previous && locked[q].path == q
      {
      }
    }
    if AllSettleable(request, rendered, files, locked) {
      forall o | o in request.desiredOutputs
        ensures (exists f :: f in rendered && f.spec == o) && OutputCarriesOn(o, previous, files) &&
                !AnyOverlap(o.path, request.protectedPaths) && NothingOverlaps(files, o.path)
      {
        var f :| f in rendered && Settleable(o, f, request, files, locked);
        OwnerAllowsExactly(o, previous, locked, files);
      }
    }
    if OutputsCarryOn(files, previous, request, rendered) {
      forall o | o in request.desiredOutputs
        ensures exists f :: f in rendered && Settleable(o, f, request, files, locked)
      {
        var f :| f in rendered && f.spec == o;
        OwnerAllowsExactly(o, previous, locked, files);
        assert Settleable(o, f, request, files, locked);
      }
    }
  }

  // ---------------------------------------------------------------- the next generation

  /** What success leaves: a lock that is true of the target, as the one before it was. */
  ghost predicate LeavesTrueLock(outcome: Executor.Outcome, now: Files) {
    outcome.bundle.Some? && ValidLockFiles(outcome.bundle.value.lock.files) && LockHolds(now, outcome.bundle.value.lock.files)
  }

  /** What a generation needs besides working operations: a true lock, and outputs that carry on and can be delivered. */
  ghost predicate CanCarryOn(t: Tree, contracts: Executor.Contracts, request: Request, plan: Option<Plan>, evidence: map<Path, Bytes>,
                             rendered: seq<RenderedFile>, previous: seq<LockedFile>, previousPresent: bool) {
    LockHolds(t.files, previous) && CarriesOn(t, contracts, request, plan, evidence, rendered, previous, previousPresent)
  }

  ghost predicate CarriesOn(t: Tree, contracts: Executor.Contracts, request: Request, plan: Option<Plan>, evidence: map<Path, Bytes>,
                            rendered: seq<RenderedFile>, previous: seq<LockedFile>, previousPresent: bool) {
    contracts.request(request) && MadeForTarget(t.files, previous, request) && OutputsCarryOn(t.files, previous, request, rendered) &&
    Executor.Deliverable(t, contracts, request, plan, evidence, rendered, previousPresent) &&
    Executor.NoEmptyUpdate(t.files, previous, rendered) && Executor.NoDirectoryInPlace(t, request, previous)
  }

  lemma CarryingOnRuns(t: Tree, contracts: Executor.Contracts, request: Request, plan: Option<Plan>, evidence: map<Path, Bytes>,
                       rendered: seq<RenderedFile>, previous: seq<LockedFile>, previousPresent: bool)
    requires CanCarryOn(t, contracts, request, plan, evidence, rendered, previous, previousPresent)
    ensures Executor.Runnable(t, contracts, request, plan, evidence, Ok(rendered), previous, previousPresent)
  {
    UpgradePreparable(t.files, previous, request, rendered);
  }

  /**
   A generation over an earlier one. It keeps the user's bytes on every exit; its success leaves a true lock again; and
   unless an operation fails, it succeeds whenever the lock is true and its outputs carry on.
   */
  method ExecuteUpgrade(fs: Filesystem, store: Store, contracts: Executor.Contracts, request: Request, plan: Option<Plan>, evidence: map<Path, Bytes>,
                        rendered: seq<RenderedFile>, previous: seq<LockedFile>, previousPresent: bool)
    returns (outcome: Executor.Outcome, errors: Errors)
    requires Closed(fs.tree) && store.published.None?
    modifies fs, store
    ensures Closed(fs.tree) && fs.faults >= old(fs.faults) && store.faults >= old(store.faults)
    ensures UserBytesKept(previous, old(fs.tree.files), fs.tree.files)
    ensures errors == {} ==> outcome.bundle.Some? && AsExpected(fs.tree.files, outcome.bundle.value.finalSnapshot)
    ensures errors == {} && RenderedSoundly(rendered) && RendersNoMarker(rendered) ==> LeavesTrueLock(outcome, fs.tree.files)
    ensures errors != {} && old(store.stage).None? &&
            CanCarryOn(old(fs.tree), contracts, request, plan, evidence, rendered, previous, previousPresent) ==>
              fs.faults + store.faults > old(fs.faults + store.faults)
  {
    ghost var t0, run := fs.tree, Executor.NoRun;
    if CanCarryOn(t0, contracts, request, plan, evidence, rendered, previous, previousPresent) {
      CarryingOnRuns(t0, contracts, request, plan, evidence, rendered, previous, previousPresent);
    }
    outcome, errors, run := Executor.Execute(fs, store, contracts, request, plan, evidence, Ok(rendered), previous, previousPresent);
    KeptMeansSpared(t0, previous, request, Ok(rendered), run, fs.tree, outcome.commit, errors);
    if errors == {} && RenderedSoundly(rendered) && RendersNoMarker(rendered) {
      TrueLockDelivered(t0, previous, request, plan.value, rendered, run, fs.tree, outcome, store.published);
    }
  }

  lemma TrueLockDelivered(t0: Tree, previous: seq<LockedFile>, request: Request, plan: Plan, rendered: seq<RenderedFile>, run: Executor.Run,
                          t: Tree, outcome: Executor.Outcome, published: Option<Directory>)
    requires RenderedSoundly(rendered) && RendersNoMarker(rendered)
    requires Executor.MadeFor(t0.files, previous, request, rendered, run)
    requires Executor.Delivered(request, t0, run, t, outcome, published) && Executor.Documented(request, Some(plan), run, outcome)
    ensures LeavesTrueLock(outcome, t.files)
  {
    DistinctPaths(request.desiredOutputs);
    var files := outcome.bundle.value.lock.files;
    GenerationHolds(t0.files, run.locked, request, rendered, run.prepared, files);
    LockUsable(t0.files, run.locked, request, rendered, run.prepared, files);
  }

  /** What a generation has left the user may edit, on the user's side, without making its lock untrue. */
  ghost predicate RoomForEdits(outcome: Executor.Outcome, edited: Files) {
    outcome.bundle.Some? && forall left ::
      AsExpected(left, outcome.bundle.value.finalSnapshot) && UserEdited(outcome.bundle.value.lock.files, left, edited) ==>
        LockHolds(edited, outcome.bundle.value.lock.files)
  }

  lemma EditsHaveRoom(outcome: Executor.Outcome, left: Files, edited: Files)
    requires outcome.bundle.Some? && AsExpected(left, outcome.bundle.value.finalSnapshot) && LeavesTrueLock(outcome, left)
    ensures RoomForEdits(outcome, edited)
  {
    var bundle := outcome.bundle.value;
    forall other | AsExpected(other, bundle.finalSnapshot) && UserEdited(bundle.lock.files, other, edited)
      ensures LockHolds(edited, bundle.lock.files)
    {
      MatchesDetermines(left, other, bundle.finalSnapshot.files);
      EditsKeepLock(bundle.lock.files, left, edited);
    }
  }

  /**
   One generation over an edited target, under the lock of an earlier one that had left the target as `left`. The edits
   survive whatever it comes to; if they kept to the user's side the earlier lock is still true, and then nothing but a
   failing operation of this very call can keep outputs that carry on from being generated.
   */
  method UpgradeAfterEdits(fs: Filesystem, store: Store, contracts: Executor.Contracts, request: Request, plan: Option<Plan>,
                           evidence: map<Path, Bytes>, rendered: seq<RenderedFile>, made: Executor.Outcome, ghost left: Files)
    returns (outcome: Executor.Outcome, errors: Errors)
    requires Closed(fs.tree) && store.published.None? && LeavesTrueLock(made, left)
    modifies fs, store
    ensures UserBytesKept(made.bundle.value.lock.files, old(fs.tree.files), fs.tree.files)
    ensures errors == {} && RenderedSoundly(rendered) && RendersNoMarker(rendered) ==> LeavesTrueLock(outcome, fs.tree.files)
    ensures errors != {} && old(store.stage).None? && UserEdited(made.bundle.value.lock.files, left, old(fs.tree.files)) &&
            CarriesOn(old(fs.tree), contracts, request, plan, evidence, rendered, made.bundle.value.lock.files, true) ==>
              fs.faults + store.faults > old(fs.faults + store.faults)
  {
    var lock := made.bundle.value.lock.files;
    if UserEdited(lock, left, fs.tree.files) {
      EditsKeepLock(lock, left, fs.tree.files);
    }
    outcome, errors := ExecuteUpgrade(fs, store, contracts, request, plan, evidence, rendered, lock, true);
  }

  /**
   Two generations with an edit between them, the second under the lock the first one published. Whatever the second comes
   to, the edit survives, and its success leaves a true lock; with edits on the user's side only it meets no conflict. If no
   operation fails and both requests have all they need, both generations succeed. What one call over an edited target
   guarantees whatever happened before it, `UpgradeAfterEdits` says.
   */
  method GenerateEditUpgrade(fs: Filesystem, first: Store, second: Store, contracts: Executor.Contracts,
                             request: Request, plan: Option<Plan>, evidence: map<Path, Bytes>, rendered: seq<RenderedFile>,
                             previous: seq<LockedFile>, previousPresent: bool, edited: Tree,
                             next: Request, nextPlan: Option<Plan>, nextEvidence: map<Path, Bytes>, nextRendered: seq<RenderedFile>)
    returns (made: Executor.Outcome, failed: Errors, upgraded: Executor.Outcome, errors: Errors)
    requires Closed(fs.tree) && first != second && first.published.None? && second.published.None? && Closed(edited)
    requires RenderedSoundly(rendered) && RendersNoMarker(rendered) && RenderedSoundly(nextRendered) && RendersNoMarker(nextRendered)
    modifies fs, first, second
    ensures failed == {} ==> RoomForEdits(made, edited.files) &&
                             UserBytesKept(made.bundle.value.lock.files, edited.files, fs.tree.files)
    ensures failed == {} && errors == {} ==> LeavesTrueLock(upgraded, fs.tree.files)
    ensures failed == {} && errors != {} && old(second.stage).None? &&
            CanCarryOn(edited, contracts, next, nextPlan, nextEvidence, nextRendered, made.bundle.value.lock.files, true) ==>
              fs.faults + second.faults > old(fs.faults + second.faults)
    ensures fs.faults + first.faults + second.faults == old(fs.faults + first.faults + second.faults) &&
            old(first.stage).None? && old(second.stage).None? &&
            CanCarryOn(old(fs.tree), contracts, request, plan, evidence, rendered, previous, previousPresent) ==>
              failed == {} &&
              (CanCarryOn(edited, contracts, next, nextPlan, nextEvidence, nextRendered, made.bundle.value.lock.files, true) ==>
                 errors == {})
  {
    made, failed := ExecuteUpgrade(fs, first, contracts, request, plan, evidence, rendered, previous, previousPresent);
    upgraded, errors := made, failed;
    if failed == {} {
      EditsHaveRoom(made, fs.tree.files, edited.files);
      fs.tree := edited;
      upgraded, errors := ExecuteUpgrade(fs, second, contracts, next, nextPlan, nextEvidence, nextRendered, made.bundle.value.lock.files, true);
    }
  }

  // ---------------------------------------------------------------- what a generated project holds

  /** The output's file shows these rendered bytes: it is them, or carries them between its markers. */
  ghost predicate Shows(file: Bytes, o: OutputSpec, rendered: Bytes) {
    match o.ownership
    case Generated => file == rendered
    case Integration =>
      ValidMergeSpec(o.merge) && exists d :: WellShaped(d) && d.body == NormalizedRegionBody(rendered) &&
                                             file == Unparse(d, BeginMarker(o.merge.value), EndMarker(o.merge.value))
    case _ => false
  }

  lemma ChangeShows(c: FileChange, o: OutputSpec, file: RenderedFile, files: Files, locked: Owners)
    requires IsChangeFor(c, o, file, files, locked)
    ensures Shows(c.bytes, o, file.bytes)
  {
    if o.ownership == Integration {
      if c.path in files {
        MergedShows(files[c.path], c.bytes, file.bytes, o.merge.value);
      } else {
        CreatedFile(file.bytes, o.merge.value);
        assert WellShaped(NewDoc(file.bytes));
      }
    }
  }

  lemma MergedShows(current: Bytes, merged: Bytes, rendered: Bytes, m: MergeSpec)
    requires ValidMergeSpec(Some(m)) && MergeIntegrationRegion(current, rendered, Some(m)).Merged?
    requires MergeIntegrationRegion(current, rendered, Some(m)).file == merged
    ensures exists d :: WellShaped(d) && d.body == NormalizedRegionBody(rendered) && merged == Unparse(d, BeginMarker(m), EndMarker(m))
  {
    SpecMarkers(m);
    var d := AcceptedIsCarried(current, BeginMarker(m), EndMarker(m), rendered);
    MergeOfCarried(d, BeginMarker(m), EndMarker(m), rendered);
    assert WellShaped(d.(body := NormalizedRegionBody(rendered)));
  }

  /** Every desired output that is not forked shows the rendering of its locked source. */
  ghost predicate ShowsRenderings(request: Request, plan: Plan, context: Template.Value, outside: Outside, previous: seq<LockedFile>, files: Files) {
    forall o | o in request.desiredOutputs && (forall f | f in previous && f.path == o.path :: f.ownership != Forked) ::
      o.path in files && exists f: RenderedFile ::
        f.spec == o && FromLockedSource(f, plan, context, outside) && Shows(files[o.path], o, f.bytes)
  }

  lemma DeliveredShows(base: Files, locked: Owners, previous: seq<LockedFile>, request: Request, rendered: seq<RenderedFile>, p: PreparedChangeSet,
                       plan: Plan, context: Template.Value, outside: Outside)
    requires IsLockIndex(previous, locked) && IsPrepared(base, locked, request, rendered, p) && ChangesFit(base, p.changes)
    requires RenderedSoundly(rendered) && forall f | f in rendered :: FromLockedSource(f, plan, context, outside)
    ensures ShowsRenderings(request, plan, context, outside, previous, Overlaid(base, Effective(p.changes)))
  {
    var after := Overlaid(base, Effective(p.changes));
    assert forall q | LockedForked(locked, q) :: locked[q] in previous && locked[q].path == q;
    forall o | o in request.desiredOutputs && (forall f | f in previous && f.path == o.path :: f.ownership != Forked)
      ensures o.path in after && exists f: RenderedFile ::
                f.spec == o && FromLockedSource(f, plan, context, outside) && Shows(after[o.path], o, f.bytes)
    {
      assert Covered(o, p.changes, rendered, base, locked);
      var file := OutputShows(base, locked, rendered, p.changes, o);
    }
  }

  lemma OutputShows(base: Files, locked: Owners, rendered: seq<RenderedFile>, changes: seq<FileChange>, o: OutputSpec)
    returns (file: RenderedFile)
    requires ChangesFit(base, changes) && RenderedSoundly(rendered) && Covered(o, changes, rendered, base, locked)
    ensures file in rendered && file.spec == o && o.path in Overlaid(base, Effective(changes))
    ensures Shows(Overlaid(base, Effective(changes))[o.path], o, file.bytes)
  {
    var c :| c in changes && FromOutput(c, o, rendered, base, locked);
    ChangeInPlace(base, locked, rendered, changes, c, o);
    file :| file in rendered && IsChangeFor(c, o, file, base, locked);
    ChangeShows(c, o, file, base, locked);
  }

  /** Renders a request and executes it: on success every output shows the rendering of the source the plan locked for it. */
  method RenderAndExecute(fs: Filesystem, store: Store, contracts: Executor.Contracts, request: Request, plan: Plan, evidence: map<Path, Bytes>,
                          context: Template.Value, outside: Outside, previous: seq<LockedFile>, previousPresent: bool)
    returns (outcome: Executor.Outcome, errors: Errors)
    requires Closed(fs.tree) && store.published.None?
    modifies fs, store
    ensures UserBytesKept(previous, old(fs.tree.files), fs.tree.files)
    ensures errors == {} ==> ShowsRenderings(request, plan, context, outside, previous, fs.tree.files)
  {
    ghost var t0, run := fs.tree, Executor.NoRun;
    var files := Render(request, plan, context, outside);
    var rendered := if files.Some? then Ok(files.value) else Err(RenderFailed);
    outcome, errors, run := Executor.Execute(fs, store, contracts, request, Some(plan), evidence, rendered, previous, previousPresent);
    KeptMeansSpared(t0, previous, request, rendered, run, fs.tree, outcome.commit, errors);
    if errors == {} {
      DeliveredShows(t0.files, run.locked, previous, request, files.value, run.prepared, plan, context, outside);
    }
  }
}
