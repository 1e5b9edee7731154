/**
 What the generator builds, completion accepts: the exact condition under which the manifest and the lock of a
 generation pass the completion check of its run.
 */
module Acceptance {
  import opened Digests
  import opened Ordering
  import opened Paths
  import opened Region
  import opened Model
  import opened Overlay
  import opened Disk
  import opened Inspect
  import opened Target
  import opened Snapshots
  import opened Commit
  import opened Artifacts
  import opened ArtifactStore
  import Executor
  import opened Conservation
  import opened Semantics

  /** A generation as the bundle builder leaves it, together with the closed tree its commit produced. */
  ghost predicate Built(base: Files, locked: Owners, request: Request, rendered: seq<RenderedFile>, plan: Plan,
                        p: PreparedChangeSet, final: TargetSnapshot, m: Manifest, l: Lock, t: Tree) {
    IsPrepared(base, locked, request, rendered, p) && ChangesFit(base, p.changes) && DigestsHold(p.changes) &&
    RequestMatchesPlan(request, plan) && ContextMatchesPlan(request, plan) && RenderedSoundly(rendered) &&
    IsManifestFor(request, plan, p.changes, m) && IsLockFor(request, plan, p, final, m, l) &&
    IsPrediction(p.snapshot.files, p.changes, final.files) && Closed(t) && t.files == Overlaid(base, Effective(p.changes))
  }

  // ---------------------------------------------------------------- overlap scans

  /** For distinct paths only the set of paths matters to the scan. */
  lemma ScanByMembers(a: seq<Path>, b: seq<Path>)
    requires DistinctKeys(a, Self) && DistinctKeys(b, Self) && forall p :: p in a <==> p in b
    ensures ScanAccepts(a) <==> ScanAccepts(b)
  {
    ScanAcceptsExactly(a);
    ScanAcceptsExactly(b);
    forall p
      ensures ExtendedBelowSlash(a, p) <==> ExtendedBelowSlash(b, p)
    {
    }
  }

  /** Files of one tree never overlap. */
  lemma TreeFilesApart(t: Tree, paths: seq<Path>)
    requires Closed(t) && DistinctKeys(paths, Self) && forall p | p in paths :: p in t.files
    ensures ScanAccepts(paths)
  {
    forall i, j | 0 <= i < |paths| && 0 <= j < |paths| && i != j
      ensures !Overlap(paths[i], paths[j])
    {
      assert paths[i] in paths && paths[j] in paths;
      assert Ancestors(paths[i]) <= t.dirs && Ancestors(paths[j]) <= t.dirs;
      assert i < j ==> Self(paths[i]) != Self(paths[j]);
      assert j < i ==> Self(paths[j]) != Self(paths[i]);
    }
    if !ScanAccepts(paths) {
      ScanRejectsOnlyOverlaps(paths);
    }
  }

  lemma OutputPathList(outputs: seq<OutputSpec>)
    requires DistinctKeys(outputs, OutputPath)
    ensures DistinctKeys(PathsOf(outputs), Self)
    ensures forall p :: p in PathsOf(outputs) <==> p in KeySet(outputs, OutputPath)
  {
    forall i, j | 0 <= i < j < |outputs|
      ensures Self(PathsOf(outputs)[i]) != Self(PathsOf(outputs)[j])
    {
      assert OutputPath(outputs[i]) != OutputPath(outputs[j]);
    }
    forall p
      ensures p in PathsOf(outputs) <==> p in KeySet(outputs, OutputPath)
    {
      if p in PathsOf(outputs) {
        var i :| 0 <= i < |outputs| && PathsOf(outputs)[i] == p;
        assert outputs[i] in outputs && OutputPath(outputs[i]) == p;
      }
      if p in KeySet(outputs, OutputPath) {
        var o :| o in outputs && OutputPath(o) == p;
        var i :| 0 <= i < |outputs| && outputs[i] == o;
        assert PathsOf(outputs)[i] == p;
      }
    }
  }

  /** The plan's outputs pass the scan because the request's do. */
  lemma PlannedPathsPass(desired: seq<OutputSpec>, planned: seq<OutputSpec>)
    requires multiset(desired) == multiset(planned) && ScanAccepts(PathsOf(desired))
    ensures ScanAccepts(PathsOf(planned)) && DistinctKeys(planned, OutputPath)
    ensures |planned| == |desired| && forall o :: o in planned <==> o in desired
  {
    DistinctPaths(desired);
    DistinctKeysPermute(desired, planned, OutputPath);
    assert |multiset(desired)| == |multiset(planned)|;
    forall o
      ensures o in planned <==> o in desired
    {
      assert o in planned <==> o in multiset(planned);
      assert o in desired <==> o in multiset(desired);
    }
    OutputPathList(desired);
    OutputPathList(planned);
    assert KeySet(desired, OutputPath) == KeySet(planned, OutputPath);
    ScanByMembers(PathsOf(desired), PathsOf(planned));
  }

  /** The manifest lists exactly the desired outputs, and its paths pass the scan. */
  lemma ManifestPathsPass(desired: seq<OutputSpec>, changes: seq<FileChange>, outputs: seq<ManifestOutput>)
    requires IsSortOf(outputs, OutputsFor(desired, changes), ManifestPath) && ScanAccepts(PathsOf(desired))
    ensures ScanAccepts(ManifestPaths(outputs)) && DistinctKeys(outputs, ManifestPath) && |outputs| == |desired|
    ensures forall m :: m in outputs <==> m.spec in desired && m.sha == ShaFor(changes, m.spec.path)
  {
    var list := OutputsFor(desired, changes);
    DistinctPaths(desired);
    SortKeepsMembers(outputs, list, ManifestPath);
    forall i, j | 0 <= i < j < |list|
      ensures ManifestPath(list[i]) != ManifestPath(list[j])
    {
      assert OutputPath(desired[i]) != OutputPath(desired[j]);
    }
    DistinctKeysPermute(list, outputs, ManifestPath);
    forall m
      ensures m in outputs <==> m.spec in desired && m.sha == ShaFor(changes, m.spec.path)
    {
      ListedOutput(desired, changes, m);
    }
    ManifestPathMembers(desired, outputs);
    OutputPathList(desired);
    ScanByMembers(PathsOf(desired), ManifestPaths(outputs));
  }

  lemma ListedOutput(desired: seq<OutputSpec>, changes: seq<FileChange>, m: ManifestOutput)
    ensures m in OutputsFor(desired, changes) <==> m.spec in desired && m.sha == ShaFor(changes, m.spec.path)
  {
    var list := OutputsFor(desired, changes);
    if m in list {
      var i :| 0 <= i < |list| && list[i] == m;
      assert desired[i] in desired;
    }
    if m.spec in desired && m.sha == ShaFor(changes, m.spec.path) {
      var i :| 0 <= i < |desired| && desired[i] == m.spec;
      assert list[i] == m;
    }
  }

  lemma ManifestPathMembers(desired: seq<OutputSpec>, outputs: seq<ManifestOutput>)
    requires DistinctKeys(outputs, ManifestPath)
    requires forall m | m in outputs :: m.spec in desired
    requires forall o | o in desired :: exists m :: m in outputs && m.spec == o
    ensures DistinctKeys(ManifestPaths(outputs), Self)
    ensures forall p :: p in ManifestPaths(outputs) <==> p in KeySet(desired, OutputPath)
  {
    forall i, j | 0 <= i < j < |outputs|
      ensures Self(ManifestPaths(outputs)[i]) != Self(ManifestPaths(outputs)[j])
    {
      assert ManifestPath(outputs[i]) != ManifestPath(outputs[j]);
    }
    forall p
      ensures p in ManifestPaths(outputs) <==> p in KeySet(desired, OutputPath)
    {
      if p in ManifestPaths(outputs) {
        var i :| 0 <= i < |outputs| && ManifestPaths(outputs)[i] == p;
        assert outputs[i] in outputs && OutputPath(outputs[i].spec) == p;
      }
      if p in KeySet(desired, OutputPath) {
        var o :| o in desired && OutputPath(o) == p;
        var m :| m in outputs && m.spec == o;
        var i :| 0 <= i < |outputs| && outputs[i] == m;
        assert ManifestPaths(outputs)[i] == p;
      }
    }
  }

  /** The lock lists files of the committed tree, which cannot overlap. */
  lemma LockPathsPass(base: Files, locked: Owners, request: Request, rendered: seq<RenderedFile>, p: PreparedChangeSet,
                      files: seq<LockedFile>, final: seq<ExistingFile>, t: Tree)
    requires IsPrepared(base, locked, request, rendered, p) && ChangesFit(base, p.changes) && DigestsHold(p.changes)
    requires DistinctKeys(p.preserved, FilePath)
    requires IsSortOf(files, LockFilesFor(request.desiredOutputs, p), LockedPath)
    requires IsPrediction(p.snapshot.files, p.changes, final)
    requires Closed(t) && t.files == Overlaid(base, Effective(p.changes))
    ensures ScanAccepts(LockPaths(files)) && DistinctKeys(files, LockedPath)
  {
    LockDistinct(base, locked, request, rendered, p, files);
    EffectiveDistinct(p.changes);
    PredictionComesTrue(base, locked, p.snapshot.files, p.changes, final);
    var owners :| IsSnapshot(t.files, owners, final);
    LockPathsDistinct(files);
    forall i | 0 <= i < |files|
      ensures LockPaths(files)[i] in t.files
    {
      var e := EntriesOf(files)[i];
      LockEntries(base, locked, request, rendered, p, files, final, e);
      assert e in final;
    }
    TreeFilesApart(t, LockPaths(files));
  }

  lemma LockPathsDistinct(files: seq<LockedFile>)
    requires DistinctKeys(files, LockedPath)
    ensures DistinctKeys(LockPaths(files), Self)
  {
    forall i, j | 0 <= i < j < |files|
      ensures Self(LockPaths(files)[i]) != Self(LockPaths(files)[j])
    {
      assert LockedPath(files[i]) != LockedPath(files[j]);
    }
  }

  // ---------------------------------------------------------------- lock entries and manifest outputs

  lemma {:induction false} ShaForIs(changes: seq<FileChange>, c: FileChange)
    requires DistinctKeys(changes, ChangePath) && c in changes
    ensures ShaFor(changes, c.path) == c.sha
  {
    var n := |changes| - 1;
    var k :| 0 <= k < |changes| && changes[k] == c;
    if k < n {
      assert ChangePath(changes[k]) != ChangePath(changes[n]);
      assert changes[..n][k] == c;
      ShaForIs(changes[..n], c);
    }
  }

  lemma {:induction false} OutputForIs(desired: seq<OutputSpec>, o: OutputSpec)
    requires DistinctKeys(desired, OutputPath) && o in desired
    ensures OutputFor(desired, o.path) == o
  {
    var n := |desired| - 1;
    var k :| 0 <= k < |desired| && desired[k] == o;
    if k < n {
      assert OutputPath(desired[k]) != OutputPath(desired[n]);
      assert desired[..n][k] == o;
      OutputForIs(desired[..n], o);
    }
  }

  /** The lock entry of a change matches the manifest entry of its output. */
  lemma ChangeMatches(base: Files, locked: Owners, request: Request, rendered: seq<RenderedFile>, p: PreparedChangeSet,
                      c: FileChange, o: OutputSpec)
    requires ChangesFit(base, p.changes) && DigestsHold(p.changes) && RenderedSoundly(rendered)
    requires DistinctKeys(request.desiredOutputs, OutputPath) && c in p.changes
    requires o in request.desiredOutputs && FromOutput(c, o, rendered, base, locked)
    ensures OutputFor(request.desiredOutputs, c.path) == o && ShaFor(p.changes, o.path) == c.sha
    ensures LockMatches(ManifestOutput(o, c.sha), LockOfChange(c, o))
  {
    OneChangeFits(c, o, rendered, base, locked);
    OutputForIs(request.desiredOutputs, o);
    ShaForIs(p.changes, c);
    var file :| file in rendered && IsChangeFor(c, o, file, base, locked);
  }

  /** Where a managed lock entry comes from. */
  lemma ManagedEntry(base: Files, locked: Owners, request: Request, rendered: seq<RenderedFile>, p: PreparedChangeSet, f: LockedFile)
    requires IsPrepared(base, locked, request, rendered, p) && NoneUnset(p.changes)
    ensures f in LockFilesFor(request.desiredOutputs, p) && Managed(f.ownership) <==>
            exists c :: c in p.changes && f == LockOfChange(c, OutputFor(request.desiredOutputs, c.path))
  {
    var list := LockFilesFor(request.desiredOutputs, p);
    if f in list {
      EntryOfChangeOnly(base, locked, request, rendered, p, f);
    }
    if c :| c in p.changes && f == LockOfChange(c, OutputFor(request.desiredOutputs, c.path)) {
      EntryOfChange(base, locked, request, rendered, p, c);
    }
  }

  lemma EntryOfChange(base: Files, locked: Owners, request: Request, rendered: seq<RenderedFile>, p: PreparedChangeSet, c: FileChange)
    requires IsPrepared(base, locked, request, rendered, p) && NoneUnset(p.changes) && c in p.changes
    ensures LockOfChange(c, OutputFor(request.desiredOutputs, c.path)) in LockFilesFor(request.desiredOutputs, p) && Managed(c.ownership)
  {
    var o :| o in request.desiredOutputs && FromOutput(c, o, rendered, base, locked);
    OneChangeFits(c, o, rendered, base, locked);
    var i :| 0 <= i < |p.changes| && p.changes[i] == c;
    assert LockFilesFor(request.desiredOutputs, p)[i] == LockOfChange(c, OutputFor(request.desiredOutputs, c.path));
  }

  /** Preserved files are not managed. */
  lemma EntryOfChangeOnly(base: Files, locked: Owners, request: Request, rendered: seq<RenderedFile>, p: PreparedChangeSet, f: LockedFile)
    requires IsPrepared(base, locked, request, rendered, p)
    requires f in LockFilesFor(request.desiredOutputs, p)
    ensures Managed(f.ownership) ==> exists c :: c in p.changes && f == LockOfChange(c, OutputFor(request.desiredOutputs, c.path))
  {
    var list := LockFilesFor(request.desiredOutputs, p);
    var i :| 0 <= i < |list| && list[i] == f;
    if i < |p.changes| {
      assert p.changes[i] in p.changes;
    } else {
      assert p.preserved[i - |p.changes|] in p.preserved;
    }
  }

  lemma LockEntriesMatch(base: Files, locked: Owners, request: Request, rendered: seq<RenderedFile>, p: PreparedChangeSet,
                         outputs: seq<ManifestOutput>, files: seq<LockedFile>)
    requires IsPrepared(base, locked, request, rendered, p) && ChangesFit(base, p.changes) && DigestsHold(p.changes)
    requires RenderedSoundly(rendered) && DistinctKeys(request.desiredOutputs, OutputPath)
    requires forall m :: m in outputs <==> m.spec in request.desiredOutputs && m.sha == ShaFor(p.changes, m.spec.path)
    requires IsSortOf(files, LockFilesFor(request.desiredOutputs, p), LockedPath)
    ensures FilesInManifest(outputs, files)
  {
    SortKeepsMembers(files, LockFilesFor(request.desiredOutputs, p), LockedPath);
    forall f | f in files && Managed(f.ownership)
      ensures exists m :: m in outputs && LockMatches(m, f)
    {
      ManagedEntry(base, locked, request, rendered, p, f);
      var c :| c in p.changes && f == LockOfChange(c, OutputFor(request.desiredOutputs, c.path));
      var o :| o in request.desiredOutputs && FromOutput(c, o, rendered, base, locked);
      ChangeMatches(base, locked, request, rendered, p, c, o);
      assert ManifestOutput(o, c.sha) in outputs;
    }
  }

  predicate NoneForked(request: Request, locked: Owners) {
    forall o | o in request.desiredOutputs :: !LockedForked(locked, o.path)
  }

  /** The same, said of the lock itself. */
  predicate NoOutputForked(request: Request, previous: seq<LockedFile>) {
    forall o, f | o in request.desiredOutputs && f in previous && f.path == o.path :: f.ownership != Forked
  }

  lemma ForkedInLock(request: Request, previous: seq<LockedFile>, locked: Owners)
    requires IsLockIndex(previous, locked)
    ensures NoneForked(request, locked) <==> NoOutputForked(request, previous)
  {
    if NoOutputForked(request, previous) {
      forall o | o in request.desiredOutputs && o.path in locked
        ensures locked[o.path].ownership != Forked
      {
        assert locked[o.path] in previous;
      }
    }
  }

  /** There are as many managed lock entries as changes. */
  lemma ManagedCount(base: Files, locked: Owners, request: Request, rendered: seq<RenderedFile>, p: PreparedChangeSet, files: seq<LockedFile>)
    requires IsPrepared(base, locked, request, rendered, p) && ChangesFit(base, p.changes)
    requires IsSortOf(files, LockFilesFor(request.desiredOutputs, p), LockedPath) && DistinctKeys(files, LockedPath)
    ensures |ManagedFiles(files)| == |p.changes|
  {
    var managed := ManagedFiles(files);
    SortKeepsMembers(files, LockFilesFor(request.desiredOutputs, p), LockedPath);
    ManagedDistinct(files);
    KeyCount(managed, LockedPath);
    KeyCount(p.changes, ChangePath);
    forall path
      ensures path in KeySet(managed, LockedPath) <==> path in KeySet(p.changes, ChangePath)
    {
      if path in KeySet(managed, LockedPath) {
        var f :| f in managed && LockedPath(f) == path;
        EntryOfChangeOnly(base, locked, request, rendered, p, f);
        var c :| c in p.changes && f == LockOfChange(c, OutputFor(request.desiredOutputs, c.path));
        assert ChangePath(c) == path;
      }
      if path in KeySet(p.changes, ChangePath) {
        var c :| c in p.changes && ChangePath(c) == path;
        EntryOfChange(base, locked, request, rendered, p, c);
        assert LockedPath(LockOfChange(c, OutputFor(request.desiredOutputs, c.path))) == path;
      }
    }
    assert KeySet(managed, LockedPath) == KeySet(p.changes, ChangePath);
  }

  lemma ChangesDesired(base: Files, locked: Owners, request: Request, rendered: seq<RenderedFile>, p: PreparedChangeSet)
    requires IsPrepared(base, locked, request, rendered, p) && NoneUnset(p.changes)
    ensures KeySet(p.changes, ChangePath) <= KeySet(request.desiredOutputs, OutputPath)
  {
    forall c | c in p.changes
      ensures ChangePath(c) in KeySet(request.desiredOutputs, OutputPath)
    {
      var o :| o in request.desiredOutputs && FromOutput(c, o, rendered, base, locked);
      OneChangeFits(c, o, rendered, base, locked);
      assert OutputPath(o) == ChangePath(c);
    }
  }

  lemma DesiredChanged(base: Files, locked: Owners, request: Request, rendered: seq<RenderedFile>, p: PreparedChangeSet, o: OutputSpec)
    requires IsPrepared(base, locked, request, rendered, p) && NoneUnset(p.changes) && o in request.desiredOutputs
    ensures OutputPath(o) in KeySet(p.changes, ChangePath) <==> !LockedForked(locked, o.path)
  {
    OutputChanged(base, locked, request, rendered, p, o);
    if Touches(p.changes, o.path) {
      var c :| c in p.changes && c.path == o.path;
      assert ChangePath(c) == OutputPath(o);
    }
  }

  lemma CountDecides(desired: seq<OutputSpec>, changes: seq<FileChange>, locked: Owners)
    requires DistinctKeys(desired, OutputPath) && DistinctKeys(changes, ChangePath)
    requires KeySet(changes, ChangePath) <= KeySet(desired, OutputPath)
    requires forall o | o in desired :: OutputPath(o) in KeySet(changes, ChangePath) <==> !LockedForked(locked, o.path)
    ensures |changes| == |desired| <==> forall o | o in desired :: !LockedForked(locked, o.path)
  {
    KeyCount(changes, ChangePath);
    KeyCount(desired, OutputPath);
    if |changes| == |desired| {
      SameKeys(changes, desired, ChangePath, OutputPath);
      assert forall o | o in desired :: OutputPath(o) in KeySet(desired, OutputPath);
    }
    if forall o | o in desired :: !LockedForked(locked, o.path) {
      assert KeySet(changes, ChangePath) == KeySet(desired, OutputPath);
    }
  }

  /** There are as many changes as desired outputs exactly if none of these is locked as forked. */
  lemma ChangeCount(base: Files, locked: Owners, request: Request, rendered: seq<RenderedFile>, p: PreparedChangeSet)
    requires IsPrepared(base, locked, request, rendered, p) && ChangesFit(base, p.changes)
    requires DistinctKeys(request.desiredOutputs, OutputPath)
    ensures |p.changes| == |request.desiredOutputs| <==> NoneForked(request, locked)
  {
    ChangesDesired(base, locked, request, rendered, p);
    forall o | o in request.desiredOutputs
      ensures OutputPath(o) in KeySet(p.changes, ChangePath) <==> !LockedForked(locked, o.path)
    {
      DesiredChanged(base, locked, request, rendered, p, o);
    }
    CountDecides(request.desiredOutputs, p.changes, locked);
  }

  /** The outputs close exactly if no desired output is locked as forked. */
  lemma ClosureExactly(base: Files, locked: Owners, request: Request, rendered: seq<RenderedFile>, plan: Plan,
                       p: PreparedChangeSet, final: TargetSnapshot, m: Manifest, l: Lock, t: Tree)
    requires Built(base, locked, request, rendered, plan, p, final, m, l, t)
    ensures OutputClosure(plan.expectedOutputs, m.outputs, l.files) <==> NoneForked(request, locked)
  {
    DistinctPaths(request.desiredOutputs);
    PlannedPathsPass(request.desiredOutputs, plan.expectedOutputs);
    ManifestPathsPass(request.desiredOutputs, p.changes, m.outputs);
    LockPathsPass(base, locked, request, rendered, p, l.files, final.files, t);
    LockEntriesMatch(base, locked, request, rendered, p, m.outputs, l.files);
    ManagedCount(base, locked, request, rendered, p, l.files);
    ChangeCount(base, locked, request, rendered, p);
  }

  // ---------------------------------------------------------------- identifiers and dependencies

  /** Identifiers are lower-case already. */
  lemma StableFolds(s: string)
    requires StableIdentifier(s)
    ensures Fold(s) == s
  {
  }

  lemma ApplicationsAgree(request: Request, plan: Plan)
    requires ContextMatchesPlan(request, plan)
    ensures SemanticallyEqual(PlanApplicationIds(plan), ContextApplicationIds(request.context.product), Self)
    ensures AllNamed(RuntimeApplicationIds(request.context.product))
  {
    var ids, named, apps := PlanApplicationIds(plan), ContextApplicationIds(request.context.product), request.context.product.applications;
    forall id | id in ids
      ensures Fold(id) == id
    {
      assert id in multiset(ids) && id in multiset(named);
      var i :| 0 <= i < |named| && named[i] == id;
      assert apps[i] in apps;
      StableFolds(id);
    }
    forall i, j | 0 <= i < j < |ids|
      ensures Fold(Self(ids[i])) != Fold(Self(ids[j]))
    {
      assert ids[i] in ids && ids[j] in ids && Self(ids[i]) != Self(ids[j]);
    }
    FoldDistinctAccepted(ids, named, Self);
    var runtime := RuntimeApplicationIds(request.context.product);
    assert |runtime| == |apps|;
    forall id | id in runtime
      ensures id != ""
    {
      var i :| 0 <= i < |runtime| && runtime[i] == id;
      assert apps[i] in apps;
    }
  }

  /** Distinct keys, none that differ only in case without another between them. */
  ghost predicate Listable<T(!new)>(items: seq<T>, key: T -> string) {
    DistinctKeys(items, key) && Interleaved(items, key)
  }

  /** What the plan must be like for its dependencies to be accepted; templates may repeat, but with one version per id. */
  ghost predicate PlanAcceptable(plan: Plan) {
    Listable(plan.packages, DependencyId) && Listable(plan.sdks, DependencyId) && Listable(plan.secretRefs, SecretKey) &&
    OneVersionPerId(Templates(plan)) && Interleaved(Templates(plan), DependencyId)
  }

  /** With one version per id, the built list names each of the plan's templates once. */
  lemma TemplateMembers(plan: Plan, list: seq<Dependency>)
    requires TemplatesOf(list, plan.applications) && OneVersionPerId(Templates(plan))
    ensures DistinctKeys(list, DependencyId) && forall t :: t in list <==> t in Templates(plan)
  {
    forall i, j | 0 <= i < j < |list|
      ensures DependencyId(list[i]) != DependencyId(list[j])
    {
      LessTrichotomy(DependencyId(list[i]), DependencyId(list[j]));
    }
    forall t
      ensures t in list <==> t in Templates(plan)
    {
      TemplateListed(plan, t);
      if t in list {
        assert NamedBy(t, plan.applications);
      }
      if a :| a in plan.applications && a.template == t {
        assert HasId(list, a.template.id);
        var u :| u in list && u.id == t.id;
        assert NamedBy(u, plan.applications);
        TemplateListed(plan, u);
      }
    }
  }

  /** The built template list is accepted exactly if the plan's own templates are interleaved. */
  lemma BuiltTemplates(plan: Plan, list: seq<Dependency>)
    requires TemplatesOf(list, plan.applications) && OneVersionPerId(Templates(plan))
    ensures TemplatesAgree(plan, list) <==> Interleaved(Templates(plan), DependencyId)
  {
    TemplateMembers(plan, list);
    FoldsApartExactly(list, DependencyId);
    InterleavedByMembers(list, Templates(plan));
    InterleavedByMembers(Templates(plan), list);
  }

  lemma InterleavedByMembers(a: seq<Dependency>, b: seq<Dependency>)
    requires forall t :: t in a <==> t in b
    ensures Interleaved(a, DependencyId) ==> Interleaved(b, DependencyId)
  {
    forall s, t | Interleaved(a, DependencyId) && s in b && t in b && Less(DependencyId(s), DependencyId(t)) &&
                  Fold(DependencyId(s)) == Fold(DependencyId(t))
      ensures exists c :: c in b && Less(DependencyId(s), DependencyId(c)) && Less(DependencyId(c), DependencyId(t))
    {
      var c :| c in a && Less(DependencyId(s), DependencyId(c)) && Less(DependencyId(c), DependencyId(t));
    }
  }

  lemma TemplateListed(plan: Plan, t: Dependency)
    ensures t in Templates(plan) <==> NamedBy(t, plan.applications)
  {
    if t in Templates(plan) {
      var i :| 0 <= i < |Templates(plan)| && Templates(plan)[i] == t;
      assert plan.applications[i] in plan.applications;
    }
    if a :| a in plan.applications && a.template == t {
      var i :| 0 <= i < |plan.applications| && plan.applications[i] == a;
      assert Templates(plan)[i] == t;
    }
  }

  /** The request was made for this plan record, blueprint and run, after the run began. */
  predicate MadeForRun(record: PlanRecord, blueprintChecksum: string, run: RunRecord, plan: Plan, c: ArtifactContext) {
    plan.blueprintId == record.blueprintId && plan.blueprintVersion == record.blueprintRevision &&
    plan.catalogChecksum == record.catalogChecksum && record.blueprintChecksum == blueprintChecksum == c.blueprint.checksum &&
    c.runId == run.runId && c.product.productId == run.productId && run.createdAt <= c.createdAt
  }

  /**
   The completion check accepts a generation's documents if and only if the request was made for this run, the plan's
   package, SDK, secret and template ids are apart with one version per template, and no desired output is locked as
   forked.
   */
  lemma AcceptedExactly(base: Files, locked: Owners, request: Request, rendered: seq<RenderedFile>, plan: Plan,
                        p: PreparedChangeSet, final: TargetSnapshot, m: Manifest, l: Lock, t: Tree,
                        record: PlanRecord, blueprintChecksum: string, run: RunRecord)
    requires Built(base, locked, request, rendered, plan, p, final, m, l, t)
    ensures Completes(record, blueprintChecksum, run, plan, m, l) <==>
            MadeForRun(record, blueprintChecksum, run, plan, request.context) && PlanAcceptable(plan) && NoneForked(request, locked)
  {
    ClosureExactly(base, locked, request, rendered, plan, p, final, m, l, t);
    ApplicationsAgree(request, plan);
    if OneVersionPerId(Templates(plan)) {
      BuiltTemplates(plan, m.templates);
      BuiltTemplates(plan, l.templates);
    }
    DependenciesExactly(request, plan, m, l);
    FoldsApartExactly(plan.packages, DependencyId);
    FoldsApartExactly(plan.sdks, DependencyId);
    FoldsApartExactly(plan.secretRefs, SecretKey);
  }

  lemma DependenciesExactly(request: Request, plan: Plan, m: Manifest, l: Lock)
    requires multiset(request.secretRefs) == multiset(plan.secretRefs)
    requires IsSortOf(m.packages, plan.packages, DependencyId) && IsSortOf(m.sdks, plan.sdks, DependencyId)
    requires IsSortOf(l.packages, plan.packages, DependencyId) && IsSortOf(l.sdks, plan.sdks, DependencyId)
    requires IsSortOf(m.secretRefs, request.secretRefs, SecretKey)
    ensures SemanticallyEqual(plan.packages, m.packages, DependencyId) <==> FoldsApart(plan.packages, DependencyId)
    ensures SemanticallyEqual(plan.packages, l.packages, DependencyId) <==> FoldsApart(plan.packages, DependencyId)
    ensures SemanticallyEqual(plan.sdks, m.sdks, DependencyId) <==> FoldsApart(plan.sdks, DependencyId)
    ensures SemanticallyEqual(plan.sdks, l.sdks, DependencyId) <==> FoldsApart(plan.sdks, DependencyId)
    ensures SemanticallyEqual(plan.secretRefs, m.secretRefs, SecretKey) <==> FoldsApart(plan.secretRefs, SecretKey)
  {
  }

  /** Ids that differ regardless of case, and one version per template id. */
  ghost predicate UniqueIds(plan: Plan) {
    FoldDistinct(plan.packages, DependencyId) && FoldDistinct(plan.sdks, DependencyId) && FoldDistinct(plan.secretRefs, SecretKey) &&
    forall s, t | s in Templates(plan) && t in Templates(plan) && Fold(s.id) == Fold(t.id) :: s == t
  }

  lemma DistinctIsListable<T(!new)>(items: seq<T>, key: T -> string)
    requires FoldDistinct(items, key)
    ensures Listable(items, key)
  {
    FoldDistinctAccepted(items, items, key);
    FoldsApartExactly(items, key);
  }

  lemma UniqueIsAcceptable(plan: Plan)
    requires UniqueIds(plan)
    ensures PlanAcceptable(plan)
  {
    DistinctIsListable(plan.packages, DependencyId);
    DistinctIsListable(plan.sdks, DependencyId);
    DistinctIsListable(plan.secretRefs, SecretKey);
    forall s, t | s in Templates(plan) && t in Templates(plan) && Less(DependencyId(s), DependencyId(t))
      ensures Fold(DependencyId(s)) != Fold(DependencyId(t))
    {
      LessTrichotomy(s.id, t.id);
    }
  }

  /** A first generation from a plan with unique ids is always accepted by the run it was made for. */
  lemma FirstGenerationAccepted(base: Files, previous: seq<LockedFile>, locked: Owners, request: Request, rendered: seq<RenderedFile>,
                                plan: Plan, p: PreparedChangeSet, final: TargetSnapshot, m: Manifest, l: Lock, t: Tree,
                                record: PlanRecord, blueprintChecksum: string, run: RunRecord)
    requires Built(base, locked, request, rendered, plan, p, final, m, l, t)
    requires previous == [] && IsLockIndex(previous, locked)
    requires MadeForRun(record, blueprintChecksum, run, plan, request.context) && UniqueIds(plan)
    ensures Completes(record, blueprintChecksum, run, plan, m, l)
  {
    UniqueIsAcceptable(plan);
    ForkedInLock(request, previous, locked);
    AcceptedExactly(base, locked, request, rendered, plan, p, final, m, l, t, record, blueprintChecksum, run);
  }

  /** An execution followed by the completion check: a generation's own documents pass under exactly these conditions. */
  method ExecuteThenComplete(fs: Filesystem, store: Store, contracts: Executor.Contracts, request: Request, plan: Plan, evidence: map<Path, Bytes>,
                             rendered: Result<seq<RenderedFile>, Error>, previous: seq<LockedFile>, previousPresent: bool,
                             record: PlanRecord, blueprintChecksum: string, runRecord: RunRecord)
    returns (executed: bool, completed: Option<Identity>)
    requires Closed(fs.tree) && store.published.None?
    requires rendered.Ok? ==> RenderedSoundly(rendered.value)
    modifies fs, store
    ensures executed ==>
              (completed.Some? <==> MadeForRun(record, blueprintChecksum, runRecord, plan, request.context) &&
                                    PlanAcceptable(plan) && NoOutputForked(request, previous))
    ensures !executed && old(store.stage).None? &&
            Executor.Runnable(old(fs.tree), contracts, request, Some(plan), evidence, rendered, previous, previousPresent) ==>
              fs.faults + store.faults > old(fs.faults + store.faults)
  {
    ghost var base, run := fs.tree.files, Executor.NoRun;
    var outcome, errors;
    outcome, errors, run := Executor.Execute(fs, store, contracts, request, Some(plan), evidence, rendered, previous, previousPresent);
    executed := errors == {};
    completed := None;
    if executed {
      var bundle := outcome.bundle.value;
      AcceptedExactly(base, run.locked, request, rendered.value, plan, run.prepared, bundle.finalSnapshot, bundle.manifest, bundle.lock,
                      fs.tree, record, blueprintChecksum, runRecord);
      ForkedInLock(request, previous, run.locked);
      completed := ValidateCompletedArtifacts(record, blueprintChecksum, runRecord, plan, bundle.manifest, bundle.lock);
    }
  }
}
