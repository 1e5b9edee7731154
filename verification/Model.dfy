/**
 The generator's records: what it is asked to write, what it found, what it will change, what it did.
 */
module Model {
  import opened Digests
  import opened Paths
  import opened Region

  datatype Ownership = Generated | Integration | Custom | Forked

  /** `Unset` is the zero value of a change that was never filled in. */
  datatype Action = Created | Updated | Unchanged | Unset

  datatype Error =
    | InvalidInput | PlanMismatch | TargetChanged | TargetUnsafe | OwnershipConflict | GeneratedModified
    | IntegrationRegion | CommitFailed | RollbackFailed | DuplicateOutput | ArtifactConflict | ArtifactStoreFailed
    | Cancelled | RenderFailed | ContractFailed

  /** Joined errors; the empty set is success. */
  type Errors = set<Error>

  datatype OutputSpec = OutputSpec(
    path: Path, ownership: Ownership, sourceId: string, sourceVersion: string, sourcePath: Path,
    sourceSha: Digest, renderStrategy: string, contentType: string, merge: Option<MergeSpec>)

  datatype ExistingFile = ExistingFile(path: Path, ownership: Ownership, sha: Digest)

  /** Ideal digest of a canonical snapshot document. */
  datatype SnapshotChecksum = ChecksumOf(files: seq<ExistingFile>)

  datatype TargetSnapshot = TargetSnapshot(files: seq<ExistingFile>, checksum: SnapshotChecksum)

  datatype RenderedFile = RenderedFile(spec: OutputSpec, bytes: Bytes, sha: Digest, generatedSha: Digest)

  datatype LockedFile = LockedFile(
    path: Path, ownership: Ownership, sha: Digest, generatedSha: Digest, sourceId: string, sourceVersion: string,
    sourcePath: Path, sourceSha: Digest, renderStrategy: string, contentType: string, merge: Option<MergeSpec>,
    updatePolicy: string)

  datatype FileChange = FileChange(
    path: Path, ownership: Ownership, action: Action, bytes: Bytes, sha: Digest, generatedSha: Digest, previousSha: Digest)

  datatype Diagnostic = Diagnostic(code: string, path: Path)

  datatype PreparedChangeSet = PreparedChangeSet(
    snapshot: TargetSnapshot, changes: seq<FileChange>, preserved: seq<ExistingFile>, diagnostics: seq<Diagnostic>)

  datatype CommitResult = CommitResult(
    filesWritten: seq<FileChange>, preservedFiles: seq<ExistingFile>, stagingCleanupCompleted: bool,
    atomicCommitCompleted: bool, rollbackAttempted: bool, rollbackCompleted: bool, targetUnchanged: bool)

  datatype Operation = Generate | Upgrade | Validate

  datatype Tool = Tool(generatorId: string, version: string, checksum: string)

  datatype SecretRef = SecretRef(provider: string, key: string, environment: string)

  datatype Evidence = Evidence(evidenceId: string, path: Path, sha: Digest)

  datatype ArtifactApplication = ArtifactApplication(planApplicationId: string, applicationId: string)

  datatype ArtifactProduct = ArtifactProduct(productId: string, officialTenantId: string, applications: seq<ArtifactApplication>)

  datatype ArtifactBlueprint = ArtifactBlueprint(blueprintId: string, version: int, checksum: string)

  datatype ArtifactContext = ArtifactContext(
    assemblyId: string, lockId: string, rollbackId: string, runId: string, product: ArtifactProduct,
    blueprint: ArtifactBlueprint, catalogChecksum: string, evidence: seq<Evidence>, createdAt: int)

  /** `wellFormed` stands for the constant fields and identifier patterns the request must match. */
  datatype Request = Request(
    wellFormed: bool, requestId: string, operation: Operation, workspaceRef: string, planChecksum: string,
    targetSnapshotChecksum: SnapshotChecksum, generator: Tool, context: ArtifactContext,
    desiredOutputs: seq<OutputSpec>, existingFiles: seq<ExistingFile>, protectedPaths: seq<Path>,
    secretRefs: seq<SecretRef>, stagingPath: Path, rollbackPointPath: Path)

  const NoSnapshot := TargetSnapshot([], ChecksumOf([]))
  const NothingPrepared := PreparedChangeSet(NoSnapshot, [], [], [])

  function FilePath(f: ExistingFile): string { f.path }

  function ChangePath(c: FileChange): string { c.path }

  function OutputPath(o: OutputSpec): string { o.path }

  function LockedPath(f: LockedFile): string { f.path }

  /** The renderer gives a file one digest, of its rendered bytes. */
  predicate RenderedSoundly(rendered: seq<RenderedFile>) {
    forall f | f in rendered :: f.sha == Sha256(f.bytes) && f.generatedSha == f.sha
  }

  function UpdatePolicy(ownership: Ownership): string {
    match ownership
    case Generated => "replace_generated"
    case Integration => "merge_integration"
    case Forked => "diff_only"
    case Custom => "preserve_custom"
  }

  /** A lock entry carrying only what an inspection needs. */
  function BareLock(path: Path, ownership: Ownership, sha: Digest): LockedFile {
    LockedFile(path, ownership, sha, NoDigest, "", "", "", NoDigest, "", "", None, UpdatePolicy(ownership))
  }

  predicate NoneUnset(changes: seq<FileChange>) {
    forall c | c in changes :: c.action != Unset
  }

  /** The changes that write something. */
  function Effective(changes: seq<FileChange>): (r: seq<FileChange>)
    ensures forall c :: c in r <==> c in changes && c.action != Unchanged
  {
    if changes == [] then []
    else
      var rest := Effective(changes[..|changes| - 1]);
      var last := changes[|changes| - 1];
      assert changes == changes[..|changes| - 1] + [last];
      if last.action == Unchanged then rest else rest + [last]
  }
}
