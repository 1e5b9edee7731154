/**
 The documents a generation leaves behind: manifest, ownership lock, rollback point, commit journal and
 result, with a backup of every file that is replaced. A document is its decoded value.
 */
module Artifacts {
  import opened Digests
  import opened Ordering
  import opened Paths
  import opened Region
  import opened Model
  import opened Overlay
  import opened Disk
  import opened Target
  import opened Snapshots

  // ---------------------------------------------------------------- the plan

  datatype Dependency = Dependency(id: string, version: string, checksum: string)

  datatype PlanApplication = PlanApplication(applicationId: string, template: Dependency)

  datatype Plan = Plan(
    planChecksum: string, blueprintId: string, blueprintVersion: int, catalogChecksum: string, generator: Tool,
    expectedOutputs: seq<OutputSpec>, secretRefs: seq<SecretRef>, packages: seq<Dependency>,
    applications: seq<PlanApplication>, sdks: seq<Dependency>)

  function DependencyId(d: Dependency): string { d.id }

  function SecretKey(s: SecretRef): string { s.provider + "\0" + s.key + "\0" + s.environment }

  function EvidenceId(e: Evidence): string { e.evidenceId }

  // ---------------------------------------------------------------- documents

  datatype ManifestOutput = ManifestOutput(spec: OutputSpec, sha: Digest)

  datatype Manifest = Manifest(
    assemblyId: string, runId: string, product: ArtifactProduct, blueprint: ArtifactBlueprint, catalogChecksum: string,
    generator: Tool, packages: seq<Dependency>, templates: seq<Dependency>, sdks: seq<Dependency>,
    outputs: seq<ManifestOutput>, evidence: seq<Evidence>, secretRefs: seq<SecretRef>, createdAt: int)

  /** Ideal digest of a manifest. */
  datatype ManifestChecksum = ChecksumOfManifest(manifest: Manifest)

  datatype Lock = Lock(
    lockId: string, manifestChecksum: ManifestChecksum, blueprintChecksum: string, catalogChecksum: string,
    targetSnapshotChecksum: SnapshotChecksum, rollbackPointPath: Path, generator: Tool, packages: seq<Dependency>,
    templates: seq<Dependency>, sdks: seq<Dependency>, files: seq<LockedFile>, createdAt: int)

  datatype RollbackFile = RollbackFile(path: Path, ownership: Ownership, action: Action, sha: Digest, backup: Option<Path>)

  datatype RollbackPoint = RollbackPoint(
    rollbackId: string, workspaceRef: string, targetSnapshotChecksum: SnapshotChecksum, previousPresent: bool,
    files: seq<RollbackFile>)

  datatype JournalState = StatePrepared | StateCommitted | StateRolledBack | StateRollbackFailed

  datatype JournalFile = JournalFile(path: Path, ownership: Ownership, action: Action, before: Digest, after: Digest, backup: Option<Path>)

  datatype Journal = Journal(
    requestId: string, workspaceRef: string, targetSnapshotChecksum: SnapshotChecksum, state: JournalState,
    changes: seq<JournalFile>, rollbackAttempted: bool, rollbackCompleted: bool)

  datatype ResultStatus = Succeeded | Failed | Conflicted

  datatype GeneratorResult = GeneratorResult(
    requestId: string, status: ResultStatus, filesWritten: seq<FileChange>, preservedFiles: seq<ExistingFile>,
    diagnostics: seq<Diagnostic>, stagingCleanupCompleted: bool, atomicCommitCompleted: bool,
    rollbackAttempted: bool, rollbackCompleted: bool, targetUnchanged: bool)

  datatype Bundle = Bundle(
    manifest: Manifest, lock: Lock, rollback: RollbackPoint, journal: Journal, result: GeneratorResult,
    backups: map<Path, Bytes>, evidence: map<Path, Bytes>, finalSnapshot: TargetSnapshot)

  datatype FailureArtifacts = FailureArtifacts(result: GeneratorResult, diagnostics: seq<Diagnostic>)

  // ---------------------------------------------------------------- request against plan

  /** Sorted by path, the two lists are the same document. */
  method OutputSetsEqual(left: seq<OutputSpec>, right: seq<OutputSpec>) returns (ok: bool)
    ensures ok ==> multiset(left) == multiset(right)
    ensures multiset(left) == multiset(right) && DistinctKeys(left, OutputPath) ==> ok
  {
    var l := Sort(left, OutputPath);
    var r := Sort(right, OutputPath);
    if multiset(left) == multiset(right) && DistinctKeys(left, OutputPath) {
      SortUnique(l, r, left, right, OutputPath);
    }
    ok := |left| == |right| && l == r;
  }

  method SecretSetsEqual(left: seq<SecretRef>, right: seq<SecretRef>) returns (ok: bool)
    ensures ok ==> multiset(left) == multiset(right)
    ensures multiset(left) == multiset(right) && DistinctKeys(left, SecretKey) ==> ok
  {
    var l := Sort(left, SecretKey);
    var r := Sort(right, SecretKey);
    if multiset(left) == multiset(right) && DistinctKeys(left, SecretKey) {
      SortUnique(l, r, left, right, SecretKey);
    }
    ok := |left| == |right| && l == r;
  }

  function PathsOf(outputs: seq<OutputSpec>): (r: seq<Path>)
    ensures |r| == |outputs| && forall i | 0 <= i < |outputs| :: r[i] == outputs[i].path
  {
    seq(|outputs|, i requires 0 <= i < |outputs| => outputs[i].path)
  }

  lemma DistinctPaths(outputs: seq<OutputSpec>)
    requires ScanAccepts(PathsOf(outputs))
    ensures DistinctKeys(outputs, OutputPath)
  {
    if !DistinctKeys(PathsOf(outputs), Self) {
      ScanRejectsEqualPaths(PathsOf(outputs));
    }
    forall i, j | 0 <= i < j < |outputs|
      ensures OutputPath(outputs[i]) != OutputPath(outputs[j])
    {
      assert Self(PathsOf(outputs)[i]) != Self(PathsOf(outputs)[j]);
    }
  }

  /** The request asks for exactly the plan's outputs and secrets, and its output paths pass the overlap scan. */
  ghost predicate RequestMatchesPlan(request: Request, plan: Plan) {
    request.planChecksum == plan.planChecksum && request.generator == plan.generator &&
    multiset(request.desiredOutputs) == multiset(plan.expectedOutputs) &&
    multiset(request.secretRefs) == multiset(plan.secretRefs) &&
    request.desiredOutputs != [] && ScanAccepts(PathsOf(request.desiredOutputs)) &&
    forall o | o in request.desiredOutputs :: ValidOutput(o)
  }

  method ValidateRequestPlan(request: Request, plan: Plan) returns (ok: bool)
    ensures ok ==> request.wellFormed && RequestMatchesPlan(request, plan)
    ensures request.wellFormed && RequestMatchesPlan(request, plan) && DistinctKeys(request.secretRefs, SecretKey) ==> ok
  {
    if RequestMatchesPlan(request, plan) {
      DistinctPaths(request.desiredOutputs);
    }
    var outputs := OutputSetsEqual(request.desiredOutputs, plan.expectedOutputs);
    var secrets := SecretSetsEqual(request.secretRefs, plan.secretRefs);
    if !request.wellFormed || request.planChecksum != plan.planChecksum || request.generator != plan.generator ||
       !outputs || !secrets || request.desiredOutputs == [] {
      return false;
    }
    for i := 0 to |request.desiredOutputs|
      invariant forall o | o in request.desiredOutputs[..i] :: ValidOutput(o)
    {
      var o := request.desiredOutputs[i];
      assert request.desiredOutputs[..i + 1] == request.desiredOutputs[..i] + [o] && o in request.desiredOutputs;
      var valid := ValidateOutput(o);
      if !valid {
        return false;
      }
    }
    assert request.desiredOutputs[..|request.desiredOutputs|] == request.desiredOutputs;
    ok := NonOverlapping(PathsOf(request.desiredOutputs));
  }

  predicate DistinctStrings(s: seq<string>) {
    forall i, j | 0 <= i < j < |s| :: s[i] != s[j]
  }

  /** Sorted, the lists agree and repeat nothing. */
  method EqualSortedIdentifiers(left: seq<string>, right: seq<string>) returns (ok: bool)
    ensures ok <==> multiset(left) == multiset(right) && DistinctKeys(left, Self)
  {
    var l := Sort(left, Self);
    var r := Sort(right, Self);
    if multiset(left) == multiset(right) && DistinctKeys(left, Self) {
      SortUnique(l, r, left, right, Self);
      DistinctKeysPermute(left, l, Self);
      assert forall i | 0 < i < |l| :: Self(l[i - 1]) != Self(l[i]);
    }
    if |l| != |r| {
      return false;
    }
    for i := 0 to |l|
      invariant forall j | 0 <= j < i :: l[j] == r[j] && (j > 0 ==> l[j] != l[j - 1])
    {
      if l[i] != r[i] || (i > 0 && l[i] == l[i - 1]) {
        return false;
      }
    }
    assert l == r;
    SortedNoRepeats(l);
    DistinctKeysPermute(l, left, Self);
    return true;
  }

  lemma SortedNoRepeats(l: seq<string>)
    requires Sorted(l, Self) && forall j | 0 < j < |l| :: l[j] != l[j - 1]
    ensures DistinctKeys(l, Self)
  {
    forall i, j | 0 <= i < j < |l|
      ensures Self(l[i]) != Self(l[j])
    {
      assert AtMost(Self(l[i]), Self(l[i + 1]));
      assert i + 1 < j ==> AtMost(Self(l[i + 1]), Self(l[j]));
      LessTrichotomy(l[i], l[i + 1]);
      LessTrichotomy(l[i + 1], l[j]);
    }
  }

  function PlanApplicationIds(plan: Plan): seq<string> {
    seq(|plan.applications|, i requires 0 <= i < |plan.applications| => plan.applications[i].applicationId)
  }

  function ContextApplicationIds(product: ArtifactProduct): seq<string> {
    seq(|product.applications|, i requires 0 <= i < |product.applications| => product.applications[i].planApplicationId)
  }

  function RuntimeApplicationIds(product: ArtifactProduct): seq<string> {
    seq(|product.applications|, i requires 0 <= i < |product.applications| => product.applications[i].applicationId)
  }

  predicate StableContextIds(c: ArtifactContext) {
    StableIdentifier(c.assemblyId) && StableIdentifier(c.lockId) && StableIdentifier(c.rollbackId) && StableIdentifier(c.runId) &&
    StableIdentifier(c.product.productId) && StableIdentifier(c.product.officialTenantId)
  }

  /** The artifact context names the plan's blueprint, catalog and applications. */
  ghost predicate ContextMatchesPlan(request: Request, plan: Plan) {
    var c := request.context;
    c.blueprint.blueprintId == plan.blueprintId && c.blueprint.version == plan.blueprintVersion &&
    c.catalogChecksum == plan.catalogChecksum && c.product.applications != [] &&
    multiset(PlanApplicationIds(plan)) == multiset(ContextApplicationIds(c.product)) &&
    DistinctKeys(PlanApplicationIds(plan), Self) && DistinctKeys(RuntimeApplicationIds(c.product), Self) &&
    StableContextIds(c) &&
    forall a | a in c.product.applications :: StableIdentifier(a.planApplicationId) && StableIdentifier(a.applicationId)
  }

  predicate EvidenceListed(evidence: seq<Evidence>) {
    evidence != [] && forall e | e in evidence :: StableIdentifier(e.evidenceId) && e.sha != NoDigest && SafePath(e.path)
  }

  /** An upgrade names the previous generation, a first generation does not; a validation may do either. */
  predicate PreviousFits(operation: Operation, previousPresent: bool) {
    match operation
    case Generate => !previousPresent
    case Upgrade => previousPresent
    case Validate => true
  }

  method ValidateArtifactContext(request: Request, plan: Plan, previousPresent: bool) returns (failure: Option<Error>)
    ensures failure.None? <==> ContextMatchesPlan(request, plan) && EvidenceListed(request.context.evidence) &&
                               PreviousFits(request.operation, previousPresent)
    ensures failure.Some? ==> failure.value == InvalidInput || failure.value == PlanMismatch
    ensures failure == Some(PlanMismatch) ==>
              multiset(PlanApplicationIds(plan)) != multiset(ContextApplicationIds(request.context.product)) ||
              !DistinctKeys(PlanApplicationIds(plan), Self)
  {
    var c := request.context;
    if !StableIdentifier(c.assemblyId) || !StableIdentifier(c.lockId) || !StableIdentifier(c.rollbackId) || !StableIdentifier(c.runId) ||
       !StableIdentifier(c.product.productId) || !StableIdentifier(c.product.officialTenantId) ||
       c.blueprint.blueprintId != plan.blueprintId || c.blueprint.version != plan.blueprintVersion ||
       c.catalogChecksum != plan.catalogChecksum || c.evidence == [] || c.product.applications == [] {
      return Some(InvalidInput);
    }
    if exists a | a in c.product.applications :: !StableIdentifier(a.planApplicationId) || !StableIdentifier(a.applicationId) {
      return Some(InvalidInput);
    }
    if !DistinctStrings(RuntimeApplicationIds(c.product)) {
      return Some(InvalidInput);
    }
    var same := EqualSortedIdentifiers(PlanApplicationIds(plan), ContextApplicationIds(c.product));
    if !same {
      return Some(PlanMismatch);
    }
    if exists e | e in c.evidence :: !StableIdentifier(e.evidenceId) || e.sha == NoDigest || !SafePath(e.path) {
      return Some(InvalidInput);
    }
    if request.operation == Generate {
      if previousPresent {
        return Some(InvalidInput);
      }
    } else if request.operation == Upgrade {
      if !previousPresent {
        return Some(InvalidInput);
      }
    }
    return None;
  }

  /** Every listed evidence document is there, non-empty and with its digest, and there are as many as listed. */
  predicate EvidenceHeld(evidence: seq<Evidence>, documents: map<Path, Bytes>) {
    |evidence| == |documents| && EvidenceHeldSoFar(evidence, documents)
  }

  predicate EvidenceHeldSoFar(evidence: seq<Evidence>, documents: map<Path, Bytes>) {
    forall e | e in evidence :: e.path in documents && documents[e.path] != "" && Sha256(documents[e.path]) == e.sha
  }

  /** The listed documents, once all of them have been checked. */
  method VerifyEvidenceDocuments(evidence: seq<Evidence>, documents: map<Path, Bytes>) returns (r: Option<map<Path, Bytes>>)
    ensures r.Some? <==> EvidenceHeld(evidence, documents)
    ensures r.Some? ==> (forall e | e in evidence :: e.path in r.value && Sha256(r.value[e.path]) == e.sha) &&
                        forall p | p in r.value :: r.value[p] != ""
  {
    if |evidence| != |documents| {
      return None;
    }
    var verified: map<Path, Bytes> := map[];
    for i := 0 to |evidence|
      invariant EvidenceHeldSoFar(evidence[..i], documents)
      invariant forall e | e in evidence[..i] :: e.path in verified
      invariant forall p | p in verified :: p in documents && verified[p] == documents[p] && documents[p] != ""
    {
      var e := evidence[i];
      assert evidence[..i + 1] == evidence[..i] + [e];
      if e.path !in documents || documents[e.path] == "" || Sha256(documents[e.path]) != e.sha {
        assert e in evidence;
        return None;
      }
      verified := verified[e.path := documents[e.path]];
    }
    assert evidence[..|evidence|] == evidence;
    return Some(verified);
  }

  // ---------------------------------------------------------------- rollback point, journal, backups

  function BackupOf(c: FileChange): Option<Path> {
    if c.action == Updated then Some(c.path) else None
  }

  function RollbackFileFor(c: FileChange): RollbackFile {
    RollbackFile(c.path, c.ownership, c.action, if c.action == Updated then c.previousSha else NoDigest, BackupOf(c))
  }

  function JournalFileFor(c: FileChange): JournalFile {
    JournalFile(c.path, c.ownership, c.action, c.previousSha, c.sha, BackupOf(c))
  }

  /** The rollback point and the journal record the changes one by one. */
  predicate RecordsChanges(rollback: seq<RollbackFile>, journal: seq<JournalFile>, changes: seq<FileChange>) {
    |rollback| == |changes| && |journal| == |changes| &&
    forall i | 0 <= i < |changes| :: RecordsChange(rollback[i], journal[i], changes[i])
  }

  /** Field by field; only an update has a digest to go back to and a backup. */
  predicate RecordsChange(f: RollbackFile, j: JournalFile, c: FileChange) {
    f.path == j.path == c.path && f.ownership == j.ownership == c.ownership && f.action == j.action == c.action &&
    j.before == c.previousSha && j.after == c.sha &&
    if c.action == Updated then f.sha == c.previousSha && f.backup == j.backup == Some(c.path)
    else f.sha == NoDigest && f.backup == j.backup == None
  }

  /** Exactly the updated files are backed up, with the content they have now. */
  ghost predicate BacksUp(backups: map<Path, Bytes>, changes: seq<FileChange>, files: Files) {
    (forall c | c in changes && c.action == Updated ::
       c.path in backups && At(files, c.path) == Some(backups[c.path]) && Sha256(backups[c.path]) == c.previousSha) &&
    forall p | p in backups :: exists c :: c in changes && c.action == Updated && c.path == p
  }

  /** The files to be replaced are still what the changes were prepared against. */
  predicate UpdatesFit(files: Files, changes: seq<FileChange>) {
    forall c | c in changes && c.action == Updated :: c.path in files && c.previousSha == Sha256(files[c.path])
  }

  /** All of the rollback point and of a journal not yet acted on, except their lists of files. */
  predicate HeadedFor(request: Request, prepared: PreparedChangeSet, rollback: RollbackPoint, journal: Journal) {
    rollback.rollbackId == request.context.rollbackId && rollback.workspaceRef == journal.workspaceRef == request.workspaceRef &&
    rollback.targetSnapshotChecksum == prepared.snapshot.checksum == journal.targetSnapshotChecksum &&
    rollback.previousPresent == (request.operation == Upgrade) && journal.requestId == request.requestId &&
    journal.state == StatePrepared && !journal.rollbackAttempted && !journal.rollbackCompleted
  }

  method BuildRollbackDocuments(fs: Filesystem, request: Request, prepared: PreparedChangeSet)
    returns (built: bool, rollback: RollbackPoint, journal: Journal, backups: map<Path, Bytes>)
    modifies fs`faults
    ensures fs.faults >= old(fs.faults)
    ensures built ==> RecordsChanges(rollback.files, journal.changes, prepared.changes) &&
                      BacksUp(backups, prepared.changes, fs.tree.files) && HeadedFor(request, prepared, rollback, journal)
    ensures !built && UpdatesFit(fs.tree.files, prepared.changes) ==> fs.faults > old(fs.faults)
  {
    rollback := RollbackPoint(request.context.rollbackId, request.workspaceRef, prepared.snapshot.checksum, request.operation == Upgrade, []);
    journal := Journal(request.requestId, request.workspaceRef, prepared.snapshot.checksum, StatePrepared, [], false, false);
    backups := map[];
    var changes := prepared.changes;
    for i := 0 to |changes|
      invariant fs.faults >= old(fs.faults)
      invariant RecordsChanges(rollback.files, journal.changes, changes[..i])
      invariant BacksUp(backups, changes[..i], fs.tree.files) && HeadedFor(request, prepared, rollback, journal)
    {
      var c := changes[i];
      assert changes[..i + 1] == changes[..i] + [c];
      if c.action == Updated {
        assert c in changes;
        var content := fs.ReadFile(c.path);
        if content.Err? || Sha256(content.value) != c.previousSha {
          return false, rollback, journal, backups;
        }
        BacksUpStep(backups, changes[..i], fs.tree.files, c, content.value);
        backups := backups[c.path := content.value];
      } else {
        BacksUpSkip(backups, changes[..i], fs.tree.files, c);
      }
      rollback := rollback.(files := rollback.files + [RollbackFileFor(c)]);
      journal := journal.(changes := journal.changes + [JournalFileFor(c)]);
    }
    assert changes[..|changes|] == changes;
    built := true;
  }

  lemma BacksUpStep(backups: map<Path, Bytes>, changes: seq<FileChange>, files: Files, c: FileChange, content: Bytes)
    requires BacksUp(backups, changes, files) && c.action == Updated
    requires At(files, c.path) == Some(content) && Sha256(content) == c.previousSha
    ensures BacksUp(backups[c.path := content], changes + [c], files)
  {
    var more := backups[c.path := content];
    forall p | p in more
      ensures exists d :: d in changes + [c] && d.action == Updated && d.path == p
    {
      if p == c.path {
        assert c in changes + [c];
      } else {
        var d :| d in changes && d.action == Updated && d.path == p;
        assert d in changes + [c];
      }
    }
  }

  lemma BacksUpSkip(backups: map<Path, Bytes>, changes: seq<FileChange>, files: Files, c: FileChange)
    requires BacksUp(backups, changes, files) && c.action != Updated
    ensures BacksUp(backups, changes + [c], files)
  {
    forall p | p in backups
      ensures exists d :: d in changes + [c] && d.action == Updated && d.path == p
    {
      var d :| d in changes && d.action == Updated && d.path == p;
      assert d in changes + [c];
    }
  }

  // ---------------------------------------------------------------- manifest and lock

  /** The template last seen under each id. */
  method TemplatesById(applications: seq<PlanApplication>) returns (byId: map<string, Dependency>)
    ensures forall id | id in byId :: byId[id].id == id && exists a :: a in applications && a.template == byId[id]
    ensures forall a | a in applications :: a.template.id in byId
  {
    byId := map[];
    for i := 0 to |applications|
      invariant forall id | id in byId :: byId[id].id == id && exists a :: a in applications && a.template == byId[id]
      invariant forall a | a in applications[..i] :: a.template.id in byId
    {
      assert applications[..i + 1] == applications[..i] + [applications[i]];
      assert applications[i] in applications;
      byId := byId[applications[i].template.id := applications[i].template];
    }
    assert applications[..|applications|] == applications;
  }

  /** The values of an id-indexed map, sorted by id. */
  method SortedValues(byId: map<string, Dependency>) returns (sorted: seq<Dependency>)
    requires forall id | id in byId :: byId[id].id == id
    ensures StrictlySorted(sorted, DependencyId)
    ensures forall d :: d in sorted <==> d.id in byId && byId[d.id] == d
  {
    var list: seq<Dependency> := [];
    var pending := byId.Keys;
    while pending != {}
      invariant pending <= byId.Keys && DistinctKeys(list, DependencyId)
      invariant forall d: Dependency :: d in list <==> d.id in byId && d.id !in pending && byId[d.id] == d
      decreases pending
    {
      var id :| id in pending;
      forall j | 0 <= j < |list|
        ensures DependencyId(list[j]) != id
      {
        assert list[j] in list;
      }
      list := list + [byId[id]];
      pending := pending - {id};
    }
    sorted := Sort(list, DependencyId);
    SortOfDistinctIsStrict(sorted, list, DependencyId);
    SortKeepsMembers(sorted, list, DependencyId);
  }

  /** Some application names the template. */
  ghost predicate NamedBy(t: Dependency, applications: seq<PlanApplication>) {
    exists a :: a in applications && a.template == t
  }

  ghost predicate HasId(templates: seq<Dependency>, id: string) {
    exists t :: t in templates && t.id == id
  }

  /** One entry per template id of the applications, each a template some application names. */
  ghost predicate TemplatesOf(templates: seq<Dependency>, applications: seq<PlanApplication>) {
    StrictlySorted(templates, DependencyId) &&
    (forall t {:trigger NamedBy(t, applications)} | t in templates :: NamedBy(t, applications)) &&
    forall a {:trigger HasId(templates, a.template.id)} | a in applications :: HasId(templates, a.template.id)
  }

  function ShaFor(changes: seq<FileChange>, p: Path): Digest {
    if changes == [] then NoDigest
    else if changes[|changes| - 1].path == p then changes[|changes| - 1].sha
    else ShaFor(changes[..|changes| - 1], p)
  }

  function OutputsFor(desired: seq<OutputSpec>, changes: seq<FileChange>): (r: seq<ManifestOutput>)
    ensures |r| == |desired| && forall i | 0 <= i < |desired| :: r[i] == ManifestOutput(desired[i], ShaFor(changes, desired[i].path))
  {
    seq(|desired|, i requires 0 <= i < |desired| => ManifestOutput(desired[i], ShaFor(changes, desired[i].path)))
  }

  function ManifestPath(o: ManifestOutput): string { o.spec.path }

  ghost predicate IsManifestFor(request: Request, plan: Plan, changes: seq<FileChange>, m: Manifest) {
    m.assemblyId == request.context.assemblyId && m.runId == request.context.runId && m.product == request.context.product &&
    m.blueprint == request.context.blueprint && m.catalogChecksum == request.context.catalogChecksum &&
    m.generator == plan.generator && m.createdAt == request.context.createdAt &&
    IsSortOf(m.packages, plan.packages, DependencyId) && TemplatesOf(m.templates, plan.applications) &&
    IsSortOf(m.sdks, plan.sdks, DependencyId) && IsSortOf(m.secretRefs, request.secretRefs, SecretKey) &&
    IsSortOf(m.outputs, OutputsFor(request.desiredOutputs, changes), ManifestPath) &&
    IsSortOf(m.evidence, request.context.evidence, EvidenceId)
  }

  method BuildAssemblyManifest(request: Request, plan: Plan, changes: seq<FileChange>) returns (m: Manifest)
    ensures IsManifestFor(request, plan, changes, m)
  {
    var byId := TemplatesById(plan.applications);
    var templates := SortedValues(byId);
    forall a | a in plan.applications
      ensures HasId(templates, a.template.id)
    {
      assert byId[a.template.id] in templates;
    }
    var packages := Sort(plan.packages, DependencyId);
    var sdks := Sort(plan.sdks, DependencyId);
    var outputs := Sort(OutputsFor(request.desiredOutputs, changes), ManifestPath);
    var evidence := Sort(request.context.evidence, EvidenceId);
    var secrets := Sort(request.secretRefs, SecretKey);
    var c := request.context;
    m := Manifest(c.assemblyId, c.runId, c.product, c.blueprint, c.catalogChecksum, plan.generator,
                  packages, templates, sdks, outputs, evidence, secrets, c.createdAt);
  }

  const NoOutput := OutputSpec("", Custom, "", "", "", NoDigest, "", "", None)

  function OutputFor(desired: seq<OutputSpec>, p: Path): OutputSpec {
    if desired == [] then NoOutput
    else if desired[|desired| - 1].path == p then desired[|desired| - 1]
    else OutputFor(desired[..|desired| - 1], p)
  }

  function LockOfChange(c: FileChange, o: OutputSpec): LockedFile {
    LockedFile(c.path, c.ownership, c.sha, c.generatedSha, o.sourceId, o.sourceVersion, o.sourcePath, o.sourceSha,
               o.renderStrategy, o.contentType, o.merge, UpdatePolicy(c.ownership))
  }

  function LockFilesFor(desired: seq<OutputSpec>, prepared: PreparedChangeSet): (r: seq<LockedFile>)
    ensures |r| == |prepared.changes| + |prepared.preserved|
    ensures forall i | 0 <= i < |prepared.changes| :: r[i] == LockOfChange(prepared.changes[i], OutputFor(desired, prepared.changes[i].path))
    ensures forall i | 0 <= i < |prepared.preserved| ::
              r[|prepared.changes| + i] == BareLock(prepared.preserved[i].path, prepared.preserved[i].ownership, prepared.preserved[i].sha)
  {
    seq(|prepared.changes|, i requires 0 <= i < |prepared.changes| =>
      LockOfChange(prepared.changes[i], OutputFor(desired, prepared.changes[i].path))) +
    seq(|prepared.preserved|, i requires 0 <= i < |prepared.preserved| =>
      BareLock(prepared.preserved[i].path, prepared.preserved[i].ownership, prepared.preserved[i].sha))
  }

  ghost predicate IsLockFor(request: Request, plan: Plan, prepared: PreparedChangeSet, final: TargetSnapshot, m: Manifest, l: Lock) {
    l.lockId == request.context.lockId && l.rollbackPointPath == request.rollbackPointPath && l.manifestChecksum == ChecksumOfManifest(m) &&
    l.blueprintChecksum == request.context.blueprint.checksum && l.catalogChecksum == request.context.catalogChecksum &&
    l.targetSnapshotChecksum == final.checksum && l.generator == request.generator && l.createdAt == request.context.createdAt &&
    IsSortOf(l.packages, plan.packages, DependencyId) && TemplatesOf(l.templates, plan.applications) &&
    IsSortOf(l.sdks, plan.sdks, DependencyId) &&
    IsSortOf(l.files, LockFilesFor(request.desiredOutputs, prepared), LockedPath)
  }

  method BuildGeneratedLock(request: Request, plan: Plan, prepared: PreparedChangeSet, final: TargetSnapshot, m: Manifest) returns (l: Lock)
    ensures IsLockFor(request, plan, prepared, final, m, l)
  {
    var byId := TemplatesById(plan.applications);
    var templates := SortedValues(byId);
    forall a | a in plan.applications
      ensures HasId(templates, a.template.id)
    {
      assert byId[a.template.id] in templates;
    }
    var packages := Sort(plan.packages, DependencyId);
    var sdks := Sort(plan.sdks, DependencyId);
    var files := Sort(LockFilesFor(request.desiredOutputs, prepared), LockedPath);
    var c := request.context;
    l := Lock(c.lockId, ChecksumOfManifest(m), c.blueprint.checksum, c.catalogChecksum, final.checksum,
              request.rollbackPointPath, request.generator, packages, templates, sdks, files, c.createdAt);
  }

  /** Every lock entry has its owner's policy, and a preserved file is locked with nothing but its digest. */
  lemma LockedAs(request: Request, plan: Plan, prepared: PreparedChangeSet, final: TargetSnapshot, m: Manifest, l: Lock)
    requires IsLockFor(request, plan, prepared, final, m, l)
    ensures forall f | f in l.files ::
              match f.ownership
              case Generated => f.updatePolicy == "replace_generated"
              case Integration => f.updatePolicy == "merge_integration"
              case Forked => f.updatePolicy == "diff_only"
              case Custom => f.updatePolicy == "preserve_custom"
    ensures forall e | e in prepared.preserved ::
              exists f :: f in l.files && f.path == e.path && f.ownership == e.ownership && f.sha == e.sha &&
                          f.generatedSha == f.sourceSha == NoDigest && f.merge.None? &&
                          f.sourceId == f.sourceVersion == f.sourcePath == f.renderStrategy == f.contentType == ""
  {
    var entries := LockFilesFor(request.desiredOutputs, prepared);
    SortKeepsMembers(l.files, entries, LockedPath);
    forall e | e in prepared.preserved
      ensures exists f :: f in l.files && f.path == e.path && f.ownership == e.ownership && f.sha == e.sha &&
                          f.generatedSha == f.sourceSha == NoDigest && f.merge.None? &&
                          f.sourceId == f.sourceVersion == f.sourcePath == f.renderStrategy == f.contentType == ""
    {
      var i :| 0 <= i < |prepared.preserved| && prepared.preserved[i] == e;
      assert entries[|prepared.changes| + i] in l.files;
    }
  }

  function BuildSucceededResult(request: Request, prepared: PreparedChangeSet): GeneratorResult {
    GeneratorResult(request.requestId, Succeeded, prepared.changes, prepared.preserved, [], true, true, false, false,
                    forall c | c in prepared.changes :: c.action == Unchanged)
  }

  // ---------------------------------------------------------------- the bundle

  ghost predicate IsBundleFor(request: Request, plan: Plan, prepared: PreparedChangeSet, b: Bundle) {
    RequestMatchesPlan(request, plan) && ContextMatchesPlan(request, plan) &&
    IsManifestFor(request, plan, prepared.changes, b.manifest) &&
    IsLockFor(request, plan, prepared, b.finalSnapshot, b.manifest, b.lock) && EvidenceKept(request.context.evidence, b.evidence)
  }

  predicate EvidenceKept(evidence: seq<Evidence>, documents: map<Path, Bytes>) {
    forall e | e in evidence :: e.path in documents && Sha256(documents[e.path]) == e.sha
  }

  /** A succeeded result reports the change set, and an unchanged target only if nothing is to be written. */
  ghost predicate Reports(request: Request, prepared: PreparedChangeSet, result: GeneratorResult) {
    result.requestId == request.requestId && result.status == Succeeded && result.filesWritten == prepared.changes &&
    result.preservedFiles == prepared.preserved && result.diagnostics == [] && result.stagingCleanupCompleted &&
    result.atomicCommitCompleted && !result.rollbackAttempted && !result.rollbackCompleted &&
    (result.targetUnchanged <==> Effective(prepared.changes) == [])
  }

  lemma SucceededReports(request: Request, prepared: PreparedChangeSet)
    ensures Reports(request, prepared, BuildSucceededResult(request, prepared))
  {
    if Effective(prepared.changes) != [] {
      assert Effective(prepared.changes)[0] in Effective(prepared.changes);
    } else {
      assert forall c | c in prepared.changes && c.action != Unchanged :: c in Effective(prepared.changes);
    }
  }

  /** Result, journal and rollback point name this request, and the result reports the change set. */
  ghost predicate Identifies(request: Request, prepared: PreparedChangeSet, b: Bundle) {
    Reports(request, prepared, b.result) && HeadedFor(request, prepared, b.rollback, b.journal)
  }

  /** The part of the bundle that drives a rollback. */
  ghost predicate CanRestore(prepared: PreparedChangeSet, files: Files, b: Bundle) {
    RecordsChanges(b.rollback.files, b.journal.changes, prepared.changes) && BacksUp(b.backups, prepared.changes, files) &&
    b.rollback.targetSnapshotChecksum == prepared.snapshot.checksum == b.journal.targetSnapshotChecksum &&
    b.journal.state == StatePrepared && b.result.status == Succeeded
  }

  /** Everything a bundle needs besides working operations. */
  ghost predicate Bundleable(request: Request, plan: Option<Plan>, evidence: map<Path, Bytes>, prepared: PreparedChangeSet,
                             previousPresent: bool, files: Files) {
    prepared.diagnostics == [] && Bundled(request, plan, evidence, previousPresent) && UpdatesFit(files, prepared.changes)
  }

  /** The request, its plan and its evidence belong together. */
  ghost predicate Bundled(request: Request, plan: Option<Plan>, evidence: map<Path, Bytes>, previousPresent: bool) {
    plan.Some? && request.wellFormed && RequestMatchesPlan(request, plan.value) && DistinctKeys(request.secretRefs, SecretKey) &&
    ContextMatchesPlan(request, plan.value) && EvidenceListed(request.context.evidence) && EvidenceHeld(request.context.evidence, evidence) &&
    PreviousFits(request.operation, previousPresent)
  }

  /** What the error of a bundle says. */
  ghost predicate BundleRefused(request: Request, plan: Option<Plan>, evidence: map<Path, Bytes>, prepared: PreparedChangeSet,
                                previousPresent: bool, files: Files, e: Error, faulty: bool) {
    match e
    case OwnershipConflict => prepared.diagnostics != []
    case TargetChanged => !UpdatesFit(files, prepared.changes) || faulty
    case PlanMismatch => !Bundled(request, plan, evidence, previousPresent)
    case _ => e == InvalidInput && !Bundled(request, plan, evidence, previousPresent)
  }

  method BuildArtifactBundle(fs: Filesystem, request: Request, plan: Option<Plan>, evidence: map<Path, Bytes>,
                             prepared: PreparedChangeSet, previousPresent: bool)
    returns (r: Result<Bundle, Error>)
    modifies fs`faults
    ensures fs.faults >= old(fs.faults)
    ensures r.Ok? ==> plan.Some? && prepared.diagnostics == [] && IsBundleFor(request, plan.value, prepared, r.value) &&
                      CanRestore(prepared, fs.tree.files, r.value)
    ensures r.Ok? && DistinctKeys(prepared.snapshot.files, FilePath) && DistinctKeys(prepared.changes, ChangePath) ==>
              IsPrediction(prepared.snapshot.files, prepared.changes, r.value.finalSnapshot.files)
    ensures r.Ok? ==> r.value.finalSnapshot.checksum == ChecksumOf(r.value.finalSnapshot.files)
    ensures r.Ok? ==> Identifies(request, prepared, r.value)
    ensures r.Ok? ==> forall p | p in r.value.evidence :: r.value.evidence[p] != ""
    ensures r.Err? && Bundleable(request, plan, evidence, prepared, previousPresent, fs.tree.files) ==> fs.faults > old(fs.faults)
    ensures r.Err? ==> BundleRefused(request, plan, evidence, prepared, previousPresent, fs.tree.files, r.error, fs.faults > old(fs.faults))
  {
    if prepared.diagnostics != [] {
      return Err(OwnershipConflict);
    }
    if plan.None? {
      return Err(PlanMismatch);
    }
    var planned := ValidateRequestPlan(request, plan.value);
    if !planned {
      return Err(PlanMismatch);
    }
    var context := ValidateArtifactContext(request, plan.value, previousPresent);
    if context.Some? {
      return Err(context.value);
    }
    var verified := VerifyEvidenceDocuments(request.context.evidence, evidence);
    if verified.None? {
      return Err(PlanMismatch);
    }
    r := BuildDocuments(fs, request, plan.value, verified.value, prepared);
  }

  /** The documents of a request whose plan, context and evidence have been validated. */
  method BuildDocuments(fs: Filesystem, request: Request, plan: Plan, verified: map<Path, Bytes>, prepared: PreparedChangeSet)
    returns (r: Result<Bundle, Error>)
    requires RequestMatchesPlan(request, plan) && ContextMatchesPlan(request, plan) && EvidenceKept(request.context.evidence, verified)
    modifies fs`faults
    ensures fs.faults >= old(fs.faults)
    ensures r.Ok? ==> IsBundleFor(request, plan, prepared, r.value) && CanRestore(prepared, fs.tree.files, r.value)
    ensures r.Ok? ==> Identifies(request, prepared, r.value) && r.value.evidence == verified
    ensures r.Ok? && DistinctKeys(prepared.snapshot.files, FilePath) && DistinctKeys(prepared.changes, ChangePath) ==>
              IsPrediction(prepared.snapshot.files, prepared.changes, r.value.finalSnapshot.files)
    ensures r.Ok? ==> r.value.finalSnapshot.checksum == ChecksumOf(r.value.finalSnapshot.files)
    ensures r.Err? ==> r.error == TargetChanged
    ensures r.Err? && UpdatesFit(fs.tree.files, prepared.changes) ==> fs.faults > old(fs.faults)
  {
    var final := SnapshotAfterChanges(prepared.snapshot, prepared.changes);
    var built, rollback, journal, backups := BuildRollbackDocuments(fs, request, prepared);
    if !built {
      return Err(TargetChanged);
    }
    SucceededReports(request, prepared);
    var manifest := BuildAssemblyManifest(request, plan, prepared.changes);
    var lock := BuildGeneratedLock(request, plan, prepared, final, manifest);
    return Ok(Bundle(manifest, lock, rollback, journal, BuildSucceededResult(request, prepared), backups, verified, final));
  }

  /** The result document of a failure; a conflict is always reported as leaving the target unchanged. */
  function BuildFailureArtifacts(request: Request, prepared: PreparedChangeSet, cause: Errors, commit: CommitResult): FailureArtifacts {
    var conflict := OwnershipConflict in cause || GeneratedModified in cause || IntegrationRegion in cause || TargetChanged in cause;
    var diagnostics := if prepared.diagnostics == [] then [Diagnostic(GenericCode(cause), "")] else prepared.diagnostics;
    FailureArtifacts(
      GeneratorResult(request.requestId, if conflict then Conflicted else Failed, [], prepared.preserved, diagnostics,
                      commit.stagingCleanupCompleted, false, commit.rollbackAttempted, commit.rollbackCompleted,
                      conflict || commit.targetUnchanged),
      diagnostics)
  }

  /** What a failure publishes, by what caused it: a conflict or a failure, nothing written, and the diagnostics at hand. */
  lemma FailureDocument(request: Request, prepared: PreparedChangeSet, cause: Errors, commit: CommitResult)
    ensures var failure := BuildFailureArtifacts(request, prepared, cause, commit);
            var result := failure.result;
            (result.status == Conflicted <==>
               OwnershipConflict in cause || GeneratedModified in cause || IntegrationRegion in cause || TargetChanged in cause) &&
            (result.status == Conflicted || result.status == Failed) && result.requestId == request.requestId &&
            result.filesWritten == [] && !result.atomicCommitCompleted && result.preservedFiles == prepared.preserved &&
            result.stagingCleanupCompleted == commit.stagingCleanupCompleted &&
            result.rollbackAttempted == commit.rollbackAttempted && result.rollbackCompleted == commit.rollbackCompleted &&
            (result.targetUnchanged <==> commit.targetUnchanged || result.status == Conflicted) &&
            result.diagnostics == failure.diagnostics && failure.diagnostics != [] &&
            (prepared.diagnostics != [] ==> failure.diagnostics == prepared.diagnostics)
    ensures var diagnostics := BuildFailureArtifacts(request, prepared, cause, commit).diagnostics;
            prepared.diagnostics == [] ==>
              |diagnostics| == 1 &&
              (TargetChanged in cause ==> diagnostics[0].code == "GENERATOR_TARGET_CHANGED") &&
              (TargetChanged !in cause && TargetUnsafe in cause ==> diagnostics[0].code == "GENERATOR_TARGET_UNSAFE") &&
              (cause !! {TargetChanged, TargetUnsafe} && PlanMismatch in cause ==> diagnostics[0].code == "GENERATOR_PLAN_MISMATCH") &&
              (cause !! {TargetChanged, TargetUnsafe, PlanMismatch} && CommitFailed in cause ==>
                 diagnostics[0].code == "GENERATOR_COMMIT_FAILED") &&
              (cause !! {TargetChanged, TargetUnsafe, PlanMismatch, CommitFailed} ==>
                 diagnostics[0].code == "GENERATOR_EXECUTION_FAILED")
  {
  }

  /** The published field claims an unchanged target against the commit's own flag exactly in a conflict. */
  lemma ConflictClaimsUnchanged(request: Request, prepared: PreparedChangeSet, cause: Errors, commit: CommitResult)
    ensures var result := BuildFailureArtifacts(request, prepared, cause, commit).result;
            (result.targetUnchanged && !commit.targetUnchanged <==> result.status == Conflicted && !commit.targetUnchanged) &&
            (commit.targetUnchanged ==> result.targetUnchanged)
  {
  }

  function GenericCode(cause: Errors): string {
    if TargetChanged in cause then "GENERATOR_TARGET_CHANGED"
    else if TargetUnsafe in cause then "GENERATOR_TARGET_UNSAFE"
    else if PlanMismatch in cause then "GENERATOR_PLAN_MISMATCH"
    else if CommitFailed in cause then "GENERATOR_COMMIT_FAILED"
    else "GENERATOR_EXECUTION_FAILED"
  }
}
