/**
 Preparing a change set: comparing the inspected target, the ownership lock and the rendered outputs, and
 deciding for every output whether it is created, updated, left alone, preserved or in conflict.
 */
module Target {
  import opened Digests
  import opened Ordering
  import opened Paths
  import opened Region
  import opened Model
  import opened Overlay
  import opened Disk
  import opened Inspect

  // ---------------------------------------------------------------- request checks

  predicate ValidOutput(o: OutputSpec) {
    SafePath(o.path) && SafePath(o.sourcePath) && (o.ownership == Generated || o.ownership == Integration) &&
    o.sourceId != "" && o.sourceVersion != "" && o.sourceSha != NoDigest &&
    (if o.ownership == Integration then
       o.renderStrategy == "generated_region" && o.contentType == "text" && o.merge.Some? &&
       o.merge.value.strategy == "generated_region_v1" && o.merge.value.regionId != "" &&
       (o.merge.value.commentPrefix == "//" || o.merge.value.commentPrefix == "#")
     else o.merge.None?) &&
    (o.contentType == "binary" ==> o.renderStrategy == "copy")
  }

  method ValidateOutput(o: OutputSpec) returns (ok: bool)
    ensures ok <==> ValidOutput(o)
  {
    if !SafePath(o.path) || !SafePath(o.sourcePath) {
      return false;
    }
    if o.ownership != Generated && o.ownership != Integration {
      return false;
    }
    if o.sourceId == "" || o.sourceVersion == "" || o.sourceSha == NoDigest {
      return false;
    }
    if o.ownership == Integration {
      if o.renderStrategy != "generated_region" || o.contentType != "text" || o.merge.None? ||
         o.merge.value.strategy != "generated_region_v1" || o.merge.value.regionId == "" ||
         (o.merge.value.commentPrefix != "//" && o.merge.value.commentPrefix != "#") {
        return false;
      }
    } else if o.merge.Some? {
      return false;
    }
    return !(o.contentType == "binary" && o.renderStrategy != "copy");
  }

  predicate WorkPathsClear(request: Request, p: Path) {
    !Overlap(p, request.stagingPath) && !Overlap(p, request.rollbackPointPath)
  }

  predicate RequestPathsValid(request: Request) {
    SafePath(request.stagingPath) && SafePath(request.rollbackPointPath) &&
    !Overlap(request.stagingPath, request.rollbackPointPath) &&
    (forall p | p in request.protectedPaths :: SafePath(p) && WorkPathsClear(request, p)) &&
    (forall o | o in request.desiredOutputs :: ValidOutput(o) && WorkPathsClear(request, o.path))
  }

  /** The request is well-formed and was made for this very snapshot. */
  ghost predicate RequestFits(request: Request, list: seq<ExistingFile>) {
    request.wellFormed && request.desiredOutputs != [] && RequestPathsValid(request) &&
    request.targetSnapshotChecksum == ChecksumOf(list) && IsSortOf(list, request.existingFiles, FilePath)
  }

  method ValidateFileRequest(request: Request, snapshot: TargetSnapshot) returns (failure: Option<Error>)
    requires DistinctKeys(snapshot.files, FilePath) && snapshot.checksum == ChecksumOf(snapshot.files)
    ensures failure.None? <==> RequestFits(request, snapshot.files)
    ensures failure == Some(TargetChanged) ==> request.targetSnapshotChecksum != snapshot.checksum ||
                                               !IsSortOf(snapshot.files, request.existingFiles, FilePath)
    ensures failure.Some? ==> failure.value == TargetChanged || failure.value == InvalidInput
  {
    if !request.wellFormed || request.stagingPath == "" || request.rollbackPointPath == "" || request.desiredOutputs == [] {
      return Some(InvalidInput);
    }
    if !SafePath(request.stagingPath) || !SafePath(request.rollbackPointPath) ||
       Overlap(request.stagingPath, request.rollbackPointPath) {
      return Some(InvalidInput);
    }
    if request.targetSnapshotChecksum != snapshot.checksum {
      return Some(TargetChanged);
    }
    var expected := Sort(request.existingFiles, FilePath);
    if IsSortOf(snapshot.files, request.existingFiles, FilePath) {
      SortUnique(snapshot.files, expected, snapshot.files, request.existingFiles, FilePath);
    }
    if expected != snapshot.files {
      return Some(TargetChanged);
    }
    var valid := ValidateListedPaths(request);
    return if valid then None else Some(InvalidInput);
  }

  /** The protected paths and the outputs, one by one. */
  method ValidateListedPaths(request: Request) returns (ok: bool)
    requires SafePath(request.stagingPath) && SafePath(request.rollbackPointPath)
    requires !Overlap(request.stagingPath, request.rollbackPointPath)
    ensures ok <==> RequestPathsValid(request)
  {
    var paths, outputs := request.protectedPaths, request.desiredOutputs;
    for i := 0 to |paths|
      invariant forall p | p in paths[..i] :: SafePath(p) && WorkPathsClear(request, p)
    {
      assert paths[..i + 1] == paths[..i] + [paths[i]] && paths[i] in paths;
      if !SafePath(paths[i]) || Overlap(paths[i], request.stagingPath) || Overlap(paths[i], request.rollbackPointPath) {
        return false;
      }
    }
    assert paths[..|paths|] == paths;
    for i := 0 to |outputs|
      invariant forall o | o in outputs[..i] :: ValidOutput(o) && WorkPathsClear(request, o.path)
    {
      assert outputs[..i + 1] == outputs[..i] + [outputs[i]] && outputs[i] in outputs;
      var valid := ValidateOutput(outputs[i]);
      if !valid || Overlap(outputs[i].path, request.stagingPath) || Overlap(outputs[i].path, request.rollbackPointPath) {
        return false;
      }
    }
    assert outputs[..|outputs|] == outputs;
    return true;
  }

  // ---------------------------------------------------------------- decisions per output

  const EmptyChange := FileChange("", Custom, Unset, "", NoDigest, NoDigest, NoDigest)

  datatype Decision =
    | Fail(error: Error)
    | Conflict(diagnostic: Diagnostic, error: Error)
    | Keep(preserved: Option<ExistingFile>)
    | Write(change: FileChange)

  function ActionFor(current: Digest, next: Digest): Action {
    if current == next then Unchanged else Updated
  }

  function PrepareGeneratedChange(file: RenderedFile, current: Option<ExistingFile>, baseline: Option<LockedFile>): Decision {
    var path := file.spec.path;
    if current.Some? then
      if baseline.None? || baseline.value.ownership != Generated then
        Conflict(Diagnostic("GENERATOR_OWNERSHIP_MISMATCH", path), OwnershipConflict)
      else if current.value.sha != baseline.value.sha then
        Conflict(Diagnostic("GENERATOR_GENERATED_MODIFIED", path), GeneratedModified)
      else
        Write(FileChange(path, Generated, ActionFor(current.value.sha, file.sha), file.bytes, file.sha, file.generatedSha, current.value.sha))
    else if baseline.Some? then
      Conflict(Diagnostic("GENERATOR_MANAGED_FILE_MISSING", path), GeneratedModified)
    else
      Write(FileChange(path, Generated, Created, file.bytes, file.sha, file.generatedSha, NoDigest))
  }

  /** `content` is what was read of the existing file, if it could be read. */
  function PrepareIntegrationChange(file: RenderedFile, current: Option<ExistingFile>, baseline: Option<LockedFile>,
                                    content: Option<Bytes>): Decision {
    var path := file.spec.path;
    if current.None? then
      if baseline.Some? then Conflict(Diagnostic("GENERATOR_INTEGRATION_FILE_MISSING", path), IntegrationRegion)
      else
        match CreateIntegrationFile(file.bytes, file.spec.merge)
        case NewRejected => Write(EmptyChange)
        case NewFile(merged, generated) =>
          Write(FileChange(path, Integration, Created, merged, Sha256(merged), generated, NoDigest))
    else if baseline.None? || baseline.value.ownership != Integration || baseline.value.merge.None? ||
            baseline.value.merge != file.spec.merge then
      Conflict(Diagnostic("GENERATOR_INTEGRATION_BASELINE_MISSING", path), OwnershipConflict)
    else if content.None? || Sha256(content.value) != current.value.sha then
      Conflict(Diagnostic("GENERATOR_TARGET_CHANGED", path), TargetChanged)
    else
      MergeDecision(path, MergeIntegrationRegion(content.value, file.bytes, file.spec.merge), baseline.value.generatedSha, current.value.sha)
  }

  /** The merged file is written if its region was the one last generated. */
  function MergeDecision(path: Path, result: Merged, last: Digest, currentSha: Digest): Decision {
    match result
    case MergeRejected => Conflict(Diagnostic("GENERATOR_INTEGRATION_REGION_MODIFIED", path), IntegrationRegion)
    case Merged(merged, region, generated) =>
      if region != last then
        Conflict(Diagnostic("GENERATOR_INTEGRATION_REGION_MODIFIED", path), IntegrationRegion)
      else
        Write(FileChange(path, Integration, ActionFor(currentSha, Sha256(merged)), merged, Sha256(merged), generated, currentSha))
  }

  predicate AnyOverlap(output: Path, paths: seq<Path>) {
    exists p | p in paths :: Overlap(output, p)
  }

  /** The first listed file that coincides or nests with the output. */
  function OverlappingExisting(output: Path, files: seq<ExistingFile>): (r: Option<Path>)
    ensures r.Some? ==> Overlap(output, r.value) && exists f :: f in files && f.path == r.value
    ensures r.None? ==> forall f | f in files :: !Overlap(output, f.path)
  {
    if files == [] then None
    else if Overlap(output, files[0].path) then Some(files[0].path)
    else OverlappingExisting(output, files[1..])
  }

  /** The first overlapping entry tells whether anything but the path itself overlaps. */
  lemma OverlapFound(t: Tree, locked: Owners, list: seq<ExistingFile>, p: Path)
    requires Closed(t) && IsSnapshot(t.files, locked, list)
    ensures var first := OverlappingExisting(p, list);
            NothingOverlaps(t.files, p) <==> first.None? || first.value == p
  {
    var first := OverlappingExisting(p, list);
    assert first.Some? ==> first.value in t.files;
    forall q | q in t.files && Overlap(p, q) && (first.None? || first.value == p)
      ensures q == p
    {
      assert EntryFor(t.files, locked, q) in list;
      assert Ancestors(q) <= t.dirs && (p in t.files ==> Ancestors(p) <= t.dirs);
    }
  }

  function Found(files: seq<ExistingFile>, p: Path): (r: Option<ExistingFile>)
    ensures r.Some? ==> r.value in files && r.value.path == p
    ensures r.None? ==> forall f | f in files :: f.path != p
  {
    if files == [] then None
    else if files[0].path == p then Some(files[0])
    else Found(files[1..], p)
  }

  function Baseline(locked: Owners, p: Path): Option<LockedFile> {
    if p in locked then Some(locked[p]) else None
  }

  predicate LockedForked(locked: Owners, p: Path) {
    p in locked && locked[p].ownership == Forked
  }

  // ---------------------------------------------------------------- what a prepared change is

  /** The change brings one output to the target: what it writes, over what, and why it may. */
  ghost predicate IsChangeFor(c: FileChange, output: OutputSpec, file: RenderedFile, files: Files, locked: Owners) {
    c.path == output.path && c.ownership == output.ownership && Managed(c.ownership) && file.spec == output &&
    (c.action == Created <==> c.path !in files) && c.action != Unset &&
    (c.path !in files ==> c.path !in locked && c.previousSha == NoDigest) &&
    (c.path in files ==>
       c.path in locked && locked[c.path].ownership == c.ownership && c.previousSha == Sha256(files[c.path]) &&
       (c.action == Unchanged <==> c.sha == c.previousSha)) &&
    (c.ownership == Generated ==> c.bytes == file.bytes && c.sha == file.sha && c.generatedSha == file.generatedSha &&
                                  (c.path in files ==> locked[c.path].sha == Sha256(files[c.path]))) &&
    (c.ownership == Integration ==>
       c.sha == Sha256(c.bytes) && ValidMergeSpec(output.merge) &&
       if c.path in files then
         locked[c.path].merge == output.merge &&
         MergeIntegrationRegion(files[c.path], file.bytes, output.merge) == Merged(c.bytes, locked[c.path].generatedSha, c.generatedSha)
       else
         CreateIntegrationFile(file.bytes, output.merge) == NewFile(c.bytes, c.generatedSha))
  }

  ghost predicate DecisionSound(d: Decision, output: OutputSpec, file: RenderedFile, files: Files, locked: Owners) {
    match d
    case Keep(preserved) =>
      LockedForked(locked, output.path) &&
      preserved == if output.path in files then Some(EntryFor(files, locked, output.path)) else None
    case Write(c) => !LockedForked(locked, output.path) &&
                     (IsChangeFor(c, output, file, files, locked) ||
                      (c == EmptyChange && output.ownership == Integration && !ValidMergeSpec(output.merge) && output.path !in files))
    case _ => true
  }

  /** No other file stands above, below or at the path. */
  predicate NothingOverlaps(files: Files, p: Path) {
    forall q | q in files :: Overlap(p, q) ==> q == p
  }

  /** The existing file is the generator's own: unmodified, or with an unmodified region. */
  ghost predicate MayReplace(o: OutputSpec, files: Files, locked: Owners)
    requires o.path in files
  {
    o.path in locked && locked[o.path].ownership == o.ownership &&
    (o.ownership == Generated ==> locked[o.path].sha == Sha256(files[o.path])) &&
    (o.ownership == Integration ==>
       locked[o.path].merge.Some? && locked[o.path].merge == o.merge &&
       RegionHolds(files[o.path], o.merge.value, locked[o.path].generatedSha))
  }

  /** Exactly the outputs a preparation settles without conflict. */
  ghost predicate Settleable(o: OutputSpec, file: RenderedFile, request: Request, files: Files, locked: Owners) {
    file.spec == o && !AnyOverlap(o.path, request.protectedPaths) && NothingOverlaps(files, o.path) && OwnerAllows(o, files, locked)
  }

  ghost predicate OwnerAllows(o: OutputSpec, files: Files, locked: Owners) {
    LockedForked(locked, o.path) || (Managed(o.ownership) && MaySettle(o, files, locked))
  }

  // ---------------------------------------------------------------- why an output is refused

  /** Something else is in the way: a protected path, or another file of the target. */
  ghost predicate InTheWay(o: OutputSpec, request: Request, files: Files) {
    (exists p :: p in request.protectedPaths && Overlap(o.path, p)) || exists q :: q in files && q != o.path && Overlap(o.path, q)
  }

  /** The file there is not one the lock gives to this output's owner, under the same merge specification. */
  ghost predicate Foreign(o: OutputSpec, files: Files, locked: Owners) {
    o.path in files && !LockedForked(locked, o.path) &&
    (o.path !in locked || locked[o.path].ownership == Custom || locked[o.path].ownership != o.ownership ||
     (o.ownership == Integration && (o.merge.None? || locked[o.path].merge != o.merge)))
  }

  /** The lock knows the output's file, and it is gone, or no longer what was generated. */
  ghost predicate Edited(o: OutputSpec, files: Files, locked: Owners) {
    Managed(o.ownership) && o.path in locked && locked[o.path].ownership != Forked && !Foreign(o, files, locked) &&
    (o.path in files ==>
       if o.ownership == Generated then locked[o.path].sha != Sha256(files[o.path])
       else !RegionHolds(files[o.path], o.merge.value, locked[o.path].generatedSha))
  }

  /** A refusal names its reason: something in the way or a foreign file, or an edited file of either kind. */
  ghost predicate Reason(e: Error, o: OutputSpec, request: Request, files: Files, locked: Owners) {
    match e
    case OwnershipConflict => InTheWay(o, request, files) || Foreign(o, files, locked)
    case GeneratedModified => !InTheWay(o, request, files) && o.ownership == Generated && Edited(o, files, locked)
    case IntegrationRegion => !InTheWay(o, request, files) && o.ownership == Integration && Edited(o, files, locked)
    case _ => false
  }

  /** The same where nothing is in the way. */
  ghost predicate OwnerReason(e: Error, o: OutputSpec, files: Files, locked: Owners) {
    match e
    case OwnershipConflict => Foreign(o, files, locked)
    case GeneratedModified => o.ownership == Generated && Edited(o, files, locked)
    case IntegrationRegion => o.ownership == Integration && Edited(o, files, locked)
    case _ => false
  }

  /** The same for whatever an output is refused for. */
  ghost predicate Refusal(d: Decision, o: OutputSpec, request: Request, files: Files, locked: Owners, faulty: bool) {
    d.Conflict? ==>
      d.diagnostic.path == o.path &&
      ((Reason(d.error, o, request, files, locked) && Coded(d.diagnostic.code, o, request, files, locked)) ||
       (d.error == TargetChanged && d.diagnostic.code == "GENERATOR_TARGET_CHANGED" && faulty))
  }

  /** Either overlap names something in the way; with neither, only the owner can object. */
  lemma WayReason(o: OutputSpec, request: Request, files: Files, locked: Owners)
    ensures AnyOverlap(o.path, request.protectedPaths) ==>
              Refusal(Conflict(Diagnostic("GENERATOR_PROTECTED_PATH", o.path), OwnershipConflict), o, request, files, locked, false)
    ensures !NothingOverlaps(files, o.path) ==>
              Refusal(Conflict(Diagnostic("GENERATOR_PATH_OVERLAP", o.path), OwnershipConflict), o, request, files, locked, false)
    ensures !AnyOverlap(o.path, request.protectedPaths) && NothingOverlaps(files, o.path) ==>
              forall d, faulty :: OwnerRefusal(d, o, files, locked, faulty) ==> Refusal(d, o, request, files, locked, faulty)
  {
    assert !AnyOverlap(o.path, request.protectedPaths) && NothingOverlaps(files, o.path) ==> !InTheWay(o, request, files);
  }

  /** What the code of a diagnostic says of the output it names. */
  ghost predicate Coded(code: string, o: OutputSpec, request: Request, files: Files, locked: Owners) {
    if code == "GENERATOR_PROTECTED_PATH" then exists p :: p in request.protectedPaths && Overlap(o.path, p)
    else if code == "GENERATOR_PATH_OVERLAP" then exists q :: q in files && q != o.path && Overlap(o.path, q)
    else OwnerCoded(code, o, files, locked)
  }

  ghost predicate OwnerCoded(code: string, o: OutputSpec, files: Files, locked: Owners) {
    if code == "GENERATOR_CUSTOM_COLLISION" then
      o.path in files && (o.path !in locked || locked[o.path].ownership == Custom)
    else if code == "GENERATOR_OWNERSHIP_MISMATCH" then o.ownership == Generated && Foreign(o, files, locked)
    else if code == "GENERATOR_INTEGRATION_BASELINE_MISSING" then o.ownership == Integration && Foreign(o, files, locked)
    else if code == "GENERATOR_MANAGED_FILE_MISSING" then o.ownership == Generated && Edited(o, files, locked) && o.path !in files
    else if code == "GENERATOR_INTEGRATION_FILE_MISSING" then o.ownership == Integration && Edited(o, files, locked) && o.path !in files
    else if code == "GENERATOR_GENERATED_MODIFIED" then o.ownership == Generated && Edited(o, files, locked) && o.path in files
    else code == "GENERATOR_INTEGRATION_REGION_MODIFIED" && o.ownership == Integration && Edited(o, files, locked) && o.path in files
  }

  /** A refusal by an output's owner: its error and its diagnostic are true of the output. */
  ghost predicate OwnerRefusal(d: Decision, o: OutputSpec, files: Files, locked: Owners, faulty: bool) {
    d.Conflict? ==>
      d.diagnostic.path == o.path &&
      ((OwnerReason(d.error, o, files, locked) && OwnerCoded(d.diagnostic.code, o, files, locked)) ||
       (d.error == TargetChanged && d.diagnostic.code == "GENERATOR_TARGET_CHANGED" && faulty))
  }

  /** The owner has no objection exactly when the file there is neither foreign nor edited. */
  lemma AllowedExactly(o: OutputSpec, files: Files, locked: Owners)
    ensures OwnerAllows(o, files, locked) <==>
            LockedForked(locked, o.path) || (Managed(o.ownership) && !Foreign(o, files, locked) && !Edited(o, files, locked))
  {
  }

  predicate Settles(d: Decision) {
    d.Write? || d.Keep?
  }

  lemma FoundInSnapshot(files: Files, locked: Owners, list: seq<ExistingFile>, p: Path)
    requires IsSnapshot(files, locked, list)
    ensures Found(list, p) == CurrentEntry(files, locked, p)
  {
    if p in files {
      assert EntryFor(files, locked, p) in list;
    }
  }

  method PrepareOutput(fs: Filesystem, request: Request, snapshot: TargetSnapshot, output: OutputSpec, file: RenderedFile, locked: Owners)
    returns (d: Decision)
    requires Closed(fs.tree) && IsSnapshot(fs.tree.files, locked, snapshot.files)
    requires output.ownership == Integration ==> output.merge.Some?
    modifies fs`faults
    ensures fs.faults >= old(fs.faults)
    ensures DecisionSound(d, output, file, fs.tree.files, locked)
    ensures Settles(d) ==> Settleable(output, file, request, fs.tree.files, locked)
    ensures !Settles(d) && fs.faults == old(fs.faults) ==> !Settleable(output, file, request, fs.tree.files, locked)
    ensures Refusal(d, output, request, fs.tree.files, locked, fs.faults > old(fs.faults))
    ensures d.Fail? ==> if d.error == PlanMismatch then file.spec != output else d.error == InvalidInput && !Managed(output.ownership)
  {
    if file.spec != output {
      return Fail(PlanMismatch);
    }
    WayReason(output, request, fs.tree.files, locked);
    if AnyOverlap(output.path, request.protectedPaths) {
      return Conflict(Diagnostic("GENERATOR_PROTECTED_PATH", output.path), OwnershipConflict);
    }
    var overlapping := OverlappingExisting(output.path, snapshot.files);
    OverlapFound(fs.tree, locked, snapshot.files, output.path);
    if overlapping.Some? && overlapping.value != output.path {
      return Conflict(Diagnostic("GENERATOR_PATH_OVERLAP", output.path), OwnershipConflict);
    }
    FoundInSnapshot(fs.tree.files, locked, snapshot.files, output.path);
    d := PrepareFound(fs, output, file, Found(snapshot.files, output.path), locked);
  }

  /** The decision for an output that overlaps nothing else. */
  method PrepareFound(fs: Filesystem, output: OutputSpec, file: RenderedFile, current: Option<ExistingFile>, locked: Owners)
    returns (d: Decision)
    requires file.spec == output && current == CurrentEntry(fs.tree.files, locked, output.path)
    modifies fs`faults
    ensures fs.faults >= old(fs.faults)
    ensures DecisionSound(d, output, file, fs.tree.files, locked)
    ensures Settles(d) ==> OwnerAllows(output, fs.tree.files, locked)
    ensures !Settles(d) && fs.faults == old(fs.faults) ==> !OwnerAllows(output, fs.tree.files, locked)
    ensures OwnerRefusal(d, output, fs.tree.files, locked, fs.faults > old(fs.faults))
    ensures d.Fail? ==> d.error == InvalidInput && !Managed(output.ownership)
  {
    var baseline := Baseline(locked, output.path);
    if baseline.Some? && baseline.value.ownership == Forked {
      return Keep(current);
    }
    if current.Some? && current.value.ownership == Custom {
      return Conflict(Diagnostic("GENERATOR_CUSTOM_COLLISION", output.path), OwnershipConflict);
    }
    d := PrepareByOwner(fs, output, file, current, baseline, locked);
  }

  function CurrentEntry(files: Files, locked: Owners, p: Path): Option<ExistingFile> {
    if p in files then Some(EntryFor(files, locked, p)) else None
  }

  /** Without a forked lock, the output is settled exactly if it may replace what is there, or nothing is known there. */
  ghost predicate MaySettle(output: OutputSpec, files: Files, locked: Owners) {
    if output.path in files then MayReplace(output, files, locked) else output.path !in locked
  }

  /** The decision for an output whose path is neither forked nor a custom file. */
  method PrepareByOwner(fs: Filesystem, output: OutputSpec, file: RenderedFile, current: Option<ExistingFile>, baseline: Option<LockedFile>,
                        ghost locked: Owners)
    returns (d: Decision)
    requires file.spec == output && !LockedForked(locked, output.path)
    requires current == CurrentEntry(fs.tree.files, locked, output.path) && baseline == Baseline(locked, output.path)
    modifies fs`faults
    ensures fs.faults >= old(fs.faults)
    ensures DecisionSound(d, output, file, fs.tree.files, locked)
    ensures Settles(d) ==> Managed(output.ownership) && MaySettle(output, fs.tree.files, locked)
    ensures !Settles(d) && fs.faults == old(fs.faults) ==> !Managed(output.ownership) || !MaySettle(output, fs.tree.files, locked)
    ensures OwnerRefusal(d, output, fs.tree.files, locked, fs.faults > old(fs.faults))
    ensures d.Fail? ==> d.error == InvalidInput && !Managed(output.ownership)
  {
    match output.ownership {
      case Generated =>
        GeneratedSound(fs.tree.files, locked, output, file);
        d := PrepareGeneratedChange(file, current, baseline);
      case Integration =>
        var content: Option<Bytes> := None;
        if current.Some? {
          var read := fs.ReadFile(output.path);
          content := if read.Ok? then Some(read.value) else None;
        }
        IntegrationSound(fs.tree.files, locked, output, file, content);
        IntegrationSettles(fs.tree.files, locked, output, file, content);
        IntegrationReason(fs.tree.files, locked, output, file, content);
        d := PrepareIntegrationChange(file, current, baseline, content);
      case _ => d := Fail(InvalidInput);
    }
  }

  lemma GeneratedSound(files: Files, locked: Owners, output: OutputSpec, file: RenderedFile)
    requires file.spec == output && output.ownership == Generated && !LockedForked(locked, output.path)
    ensures var d := PrepareGeneratedChange(file, CurrentEntry(files, locked, output.path), Baseline(locked, output.path));
            DecisionSound(d, output, file, files, locked) && (Settles(d) <==> MaySettle(output, files, locked)) &&
            OwnerRefusal(d, output, files, locked, false) && !d.Fail?
  {
  }

  lemma IntegrationSound(files: Files, locked: Owners, output: OutputSpec, file: RenderedFile, content: Option<Bytes>)
    requires file.spec == output && output.ownership == Integration && !LockedForked(locked, output.path)
    requires output.path in files && content.Some? ==> content.value == files[output.path]
    ensures var d := PrepareIntegrationChange(file, CurrentEntry(files, locked, output.path), Baseline(locked, output.path), content);
            DecisionSound(d, output, file, files, locked)
  {
  }

  lemma IntegrationReason(files: Files, locked: Owners, output: OutputSpec, file: RenderedFile, content: Option<Bytes>)
    requires file.spec == output && output.ownership == Integration && !LockedForked(locked, output.path)
    requires output.path in files && content.Some? ==> content.value == files[output.path]
    ensures var d := PrepareIntegrationChange(file, CurrentEntry(files, locked, output.path), Baseline(locked, output.path), content);
            OwnerRefusal(d, output, files, locked, output.path in files && content.None?) && !d.Fail?
  {
    var d := PrepareIntegrationChange(file, CurrentEntry(files, locked, output.path), Baseline(locked, output.path), content);
    if output.path in files && !Foreign(output, files, locked) && content.Some? {
      var merged := MergeIntegrationRegion(files[output.path], file.bytes, output.merge);
      assert d == MergeDecision(output.path, merged, locked[output.path].generatedSha, Sha256(files[output.path]));
      RegionHoldsExactly(files[output.path], output.merge.value, file.bytes, locked[output.path].generatedSha);
    }
  }

  lemma IntegrationSettles(files: Files, locked: Owners, output: OutputSpec, file: RenderedFile, content: Option<Bytes>)
    requires file.spec == output && output.ownership == Integration && !LockedForked(locked, output.path)
    requires output.path in files && content.Some? ==> content.value == files[output.path]
    ensures Settles(PrepareIntegrationChange(file, CurrentEntry(files, locked, output.path), Baseline(locked, output.path), content)) <==>
            MaySettle(output, files, locked) && (output.path in files ==> content.Some?)
  {
    var d := PrepareIntegrationChange(file, CurrentEntry(files, locked, output.path), Baseline(locked, output.path), content);
    if output.path in files && output.path in locked && locked[output.path].ownership == Integration && output.merge.Some? &&
       locked[output.path].merge == output.merge && content.Some? {
      var merged := MergeIntegrationRegion(files[output.path], file.bytes, output.merge);
      assert d == MergeDecision(output.path, merged, locked[output.path].generatedSha, Sha256(files[output.path]));
      assert Settles(d) <==> merged.Merged? && merged.current == locked[output.path].generatedSha;
      RegionHoldsExactly(files[output.path], output.merge.value, file.bytes, locked[output.path].generatedSha);
    }
  }

  // ---------------------------------------------------------------- the whole change set

  /** The change comes from this output. */
  ghost predicate FromOutput(c: FileChange, output: OutputSpec, rendered: seq<RenderedFile>, files: Files, locked: Owners) {
    !LockedForked(locked, output.path) &&
    ((exists file :: file in rendered && IsChangeFor(c, output, file, files, locked)) ||
     (c == EmptyChange && output.ownership == Integration && !ValidMergeSpec(output.merge) && output.path !in files))
  }

  ghost predicate Increasing(s: seq<nat>, bound: nat) {
    (forall j | 0 <= j < |s| :: s[j] < bound) && forall i, j | 0 <= i < j < |s| :: s[i] < s[j]
  }

  /** `origin[j]` is the output that change `j` comes from. */
  ghost predicate ChangesTrace(outs: seq<OutputSpec>, rendered: seq<RenderedFile>, files: Files, locked: Owners,
                               changes: seq<FileChange>, origin: seq<nat>) {
    |origin| == |changes| && Increasing(origin, |outs|) &&
    forall j | 0 <= j < |changes| :: FromOutput(changes[j], outs[origin[j]], rendered, files, locked)
  }

  /** `kept[j]` is the forked output whose file entry `j` preserves. */
  ghost predicate KeptTrace(outs: seq<OutputSpec>, files: Files, locked: Owners, preserved: seq<ExistingFile>, kept: seq<nat>) {
    |kept| == |preserved| && Increasing(kept, |outs|) &&
    forall j | 0 <= j < |preserved| ::
      LockedForked(locked, outs[kept[j]].path) && outs[kept[j]].path in files &&
      preserved[j] == EntryFor(files, locked, outs[kept[j]].path)
  }

  /** Without conflict, every output has been dealt with. */
  ghost predicate AllSettled(outs: seq<OutputSpec>, files: Files, locked: Owners, origin: seq<nat>, kept: seq<nat>) {
    forall k | 0 <= k < |outs| ::
      if LockedForked(locked, outs[k].path) then outs[k].path in files ==> k in kept else k in origin
  }

  function FirstError(current: Option<Error>, candidate: Error): Option<Error> {
    if current.None? || candidate == GeneratedModified || candidate == IntegrationRegion then Some(candidate) else current
  }

  lemma TraceSkip(outs: seq<OutputSpec>, o: OutputSpec, rendered: seq<RenderedFile>, files: Files, locked: Owners,
                  changes: seq<FileChange>, origin: seq<nat>, preserved: seq<ExistingFile>, kept: seq<nat>)
    requires ChangesTrace(outs, rendered, files, locked, changes, origin) && KeptTrace(outs, files, locked, preserved, kept)
    ensures ChangesTrace(outs + [o], rendered, files, locked, changes, origin)
    ensures KeptTrace(outs + [o], files, locked, preserved, kept)
  {
  }

  lemma TraceWrite(outs: seq<OutputSpec>, o: OutputSpec, rendered: seq<RenderedFile>, files: Files, locked: Owners,
                   changes: seq<FileChange>, origin: seq<nat>, kept: seq<nat>, c: FileChange)
    requires ChangesTrace(outs, rendered, files, locked, changes, origin) && FromOutput(c, o, rendered, files, locked)
    ensures ChangesTrace(outs + [o], rendered, files, locked, changes + [c], origin + [|outs|])
    ensures AllSettled(outs, files, locked, origin, kept) ==> AllSettled(outs + [o], files, locked, origin + [|outs|], kept)
  {
    var n := origin + [|outs|];
    forall k | 0 <= k < |outs| && k in origin
      ensures k in n
    {
    }
    assert n[|origin|] == |outs|;
  }

  lemma TraceKeep(outs: seq<OutputSpec>, o: OutputSpec, files: Files, locked: Owners,
                  preserved: seq<ExistingFile>, origin: seq<nat>, kept: seq<nat>)
    requires KeptTrace(outs, files, locked, preserved, kept) && LockedForked(locked, o.path)
    ensures o.path in files ==>
              KeptTrace(outs + [o], files, locked, preserved + [EntryFor(files, locked, o.path)], kept + [|outs|]) &&
              (AllSettled(outs, files, locked, origin, kept) ==> AllSettled(outs + [o], files, locked, origin, kept + [|outs|]))
    ensures o.path !in files ==>
              KeptTrace(outs + [o], files, locked, preserved, kept) &&
              (AllSettled(outs, files, locked, origin, kept) ==> AllSettled(outs + [o], files, locked, origin, kept))
  {
    var n := kept + [|outs|];
    forall k | 0 <= k < |outs| && k in kept
      ensures k in n
    {
    }
    assert n[|kept|] == |outs|;
  }

  function RenderedPath(f: RenderedFile): string { f.spec.path }

  /** `index` holds exactly the rendered files, each under its path. */
  ghost predicate IsRenderedIndex(index: map<Path, RenderedFile>, rendered: seq<RenderedFile>) {
    (forall p | p in index :: index[p] in rendered && index[p].spec.path == p) &&
    forall f | f in rendered :: f.spec.path in index && index[f.spec.path] == f
  }

  /** The rendered files by path, which no two of them may share. */
  method RenderedByPath(rendered: seq<RenderedFile>) returns (r: Option<map<Path, RenderedFile>>)
    ensures r.Some? <==> DistinctKeys(rendered, RenderedPath)
    ensures r.Some? ==> IsRenderedIndex(r.value, rendered) && |r.value| == |rendered|
  {
    var values: map<Path, RenderedFile> := map[];
    for i := 0 to |rendered|
      invariant DistinctKeys(rendered[..i], RenderedPath) && IsRenderedIndex(values, rendered[..i])
    {
      var file := rendered[i];
      assert rendered[..i + 1] == rendered[..i] + [file];
      if file.spec.path in values {
        var k :| 0 <= k < i && rendered[..i][k] == values[file.spec.path];
        assert RenderedPath(rendered[k]) == RenderedPath(rendered[i]);
        return None;
      }
      forall k | 0 <= k < i
        ensures RenderedPath(rendered[k]) != file.spec.path
      {
        assert rendered[..i][k] in rendered[..i];
      }
      values := values[file.spec.path := file];
    }
    assert rendered[..|rendered|] == rendered;
    IndexSize(values, rendered);
    return Some(values);
  }

  lemma IndexSize(index: map<Path, RenderedFile>, rendered: seq<RenderedFile>)
    requires IsRenderedIndex(index, rendered) && DistinctKeys(rendered, RenderedPath)
    ensures |index| == |rendered|
  {
    KeyCount(rendered, RenderedPath);
    forall p
      ensures p in index.Keys <==> p in KeySet(rendered, RenderedPath)
    {
      if p in index {
        assert RenderedPath(index[p]) == p;
      }
    }
    assert index.Keys == KeySet(rendered, RenderedPath);
  }

  /** Every output has its rendered file and can be settled. */
  ghost predicate AllSettleable(request: Request, rendered: seq<RenderedFile>, files: Files, locked: Owners) {
    DistinctKeys(rendered, RenderedPath) && |rendered| == |request.desiredOutputs| &&
    forall o | o in request.desiredOutputs :: exists f :: f in rendered && Settleable(o, f, request, files, locked)
  }

  /** Something is in the way of this output, or its owner objects. */
  ghost predicate Refused(o: OutputSpec, request: Request, files: Files, locked: Owners) {
    InTheWay(o, request, files) || !OwnerAllows(o, files, locked)
  }

  /** The error is the reason of some refusal, an edited file outweighing what is merely in the way or foreign. */
  ghost predicate Blames(outs: seq<OutputSpec>, request: Request, files: Files, locked: Owners, conflict: Option<Error>, faulty: bool) {
    (conflict.Some? ==>
       (conflict.value == TargetChanged && faulty) || exists o :: o in outs && Reason(conflict.value, o, request, files, locked)) &&
    (!faulty ==>
       forall o | o in outs && !InTheWay(o, request, files) && Edited(o, files, locked) ::
         conflict == Some(GeneratedModified) || conflict == Some(IntegrationRegion))
  }

  /** Without a fault, the diagnostics name exactly the refused outputs, each with a code that is true of it. */
  ghost predicate Names(outs: seq<OutputSpec>, request: Request, files: Files, locked: Owners, diagnostics: seq<Diagnostic>, faulty: bool) {
    !faulty ==>
      (forall d | d in diagnostics ::
         exists o :: o in outs && o.path == d.path && Refused(o, request, files, locked) && Coded(d.code, o, request, files, locked)) &&
      forall o | o in outs && Refused(o, request, files, locked) :: Named(diagnostics, o.path)
  }

  /** The conflicts so far: their error and their diagnostics. */
  ghost predicate Tells(outs: seq<OutputSpec>, request: Request, files: Files, locked: Owners, p: Progress, faulty: bool) {
    Blames(outs, request, files, locked, p.conflict, faulty) && Names(outs, request, files, locked, p.diagnostics, faulty)
  }

  ghost predicate Named(diagnostics: seq<Diagnostic>, p: Path) {
    exists d :: d in diagnostics && d.path == p
  }

  /** A reason is a refusal, and an edited file nothing stands in the way of has no other. */
  lemma ReasonRefuses(e: Error, o: OutputSpec, request: Request, files: Files, locked: Owners)
    requires Reason(e, o, request, files, locked)
    ensures Refused(o, request, files, locked)
    ensures !InTheWay(o, request, files) && Edited(o, files, locked) ==> e == GeneratedModified || e == IntegrationRegion
  {
  }

  datatype Progress = Progress(changes: seq<FileChange>, preserved: seq<ExistingFile>, diagnostics: seq<Diagnostic>, conflict: Option<Error>)

  /** The outputs dealt with so far. */
  ghost predicate Traced(outs: seq<OutputSpec>, rendered: seq<RenderedFile>, files: Files, locked: Owners,
                         p: Progress, origin: seq<nat>, kept: seq<nat>) {
    ChangesTrace(outs, rendered, files, locked, p.changes, origin) && KeptTrace(outs, files, locked, p.preserved, kept) &&
    (p.conflict.None? ==> AllSettled(outs, files, locked, origin, kept) && p.diagnostics == [] &&
                          forall o | o in outs :: NothingOverlaps(files, o.path))
  }

  /** The rendered file of a settleable output is the one the index yields. */
  lemma IndexedSettleable(request: Request, rendered: seq<RenderedFile>, index: map<Path, RenderedFile>, files: Files, locked: Owners, o: OutputSpec)
    requires IsRenderedIndex(index, rendered) && AllSettleable(request, rendered, files, locked) && o in request.desiredOutputs
    ensures o.path in index && Settleable(o, index[o.path], request, files, locked)
  {
    var f :| f in rendered && Settleable(o, f, request, files, locked);
  }

  /** A decision, and what it adds to the conflicts so far. */
  method DecideOutput(fs: Filesystem, request: Request, snapshot: TargetSnapshot, output: OutputSpec, file: RenderedFile, locked: Owners,
                      ghost rendered: seq<RenderedFile>, ghost done: seq<OutputSpec>, ghost start: Progress, ghost origin: seq<nat>,
                      ghost kept: seq<nat>, ghost base: nat)
    returns (d: Decision)
    requires Closed(fs.tree) && IsSnapshot(fs.tree.files, locked, snapshot.files)
    requires file in rendered && Traced(done, rendered, fs.tree.files, locked, start, origin, kept)
    requires output.ownership == Integration ==> output.merge.Some?
    requires base <= fs.faults && Tells(done, request, fs.tree.files, locked, start, fs.faults > base)
    modifies fs`faults
    ensures fs.faults >= old(fs.faults)
    ensures !Settles(d) && fs.faults == old(fs.faults) ==> !Settleable(output, file, request, fs.tree.files, locked)
    ensures !d.Fail? ==>
              Traced(done + [output], rendered, fs.tree.files, locked, Decided(start, d), if d.Write? then origin + [|done|] else origin,
                     if d.Keep? && d.preserved.Some? then kept + [|done|] else kept)
    ensures if d.Fail? then d.error == PlanMismatch || (d.error == InvalidInput && !Managed(output.ownership))
            else Tells(done + [output], request, fs.tree.files, locked, Decided(start, d), fs.faults > base)
  {
    d := PrepareOutput(fs, request, snapshot, output, file, locked);
    if !d.Fail? {
      DecisionTraced(done, output, rendered, fs.tree.files, locked, start, origin, kept, d, file);
      SettledNotRefused(output, file, request, fs.tree.files, locked);
      TellsNext(done, output, request, fs.tree.files, locked, start, old(fs.faults) > base, d, fs.faults > base);
    }
  }

  /** Decides the next output and adds the outcome. */
  method PrepareNext(fs: Filesystem, request: Request, snapshot: TargetSnapshot, rendered: seq<RenderedFile>, byPath: map<Path, RenderedFile>,
                     locked: Owners, i: nat, start: Progress, ghost origin0: seq<nat>, ghost kept0: seq<nat>, ghost fits: bool, ghost base: nat)
    returns (p: Progress, failure: Option<Error>, ghost origin: seq<nat>, ghost kept: seq<nat>)
    requires Closed(fs.tree) && IsSnapshot(fs.tree.files, locked, snapshot.files) && RequestPathsValid(request)
    requires i < |request.desiredOutputs| && IsRenderedIndex(byPath, rendered)
    requires Traced(request.desiredOutputs[..i], rendered, fs.tree.files, locked, start, origin0, kept0)
    requires fits ==> AllSettleable(request, rendered, fs.tree.files, locked)
    requires base <= fs.faults && Tells(request.desiredOutputs[..i], request, fs.tree.files, locked, start, fs.faults > base)
    modifies fs`faults
    ensures fs.faults >= old(fs.faults)
    ensures failure.None? ==> Traced(request.desiredOutputs[..i + 1], rendered, fs.tree.files, locked, p, origin, kept)
    ensures failure.None? ==> Tells(request.desiredOutputs[..i + 1], request, fs.tree.files, locked, p, fs.faults > base)
    ensures failure.Some? ==> failure.value == PlanMismatch
    ensures fits && (failure.Some? || (p.conflict.Some? && start.conflict.None?)) ==> fs.faults > old(fs.faults)
  {
    var outs := request.desiredOutputs;
    var output := outs[i];
    p, failure, origin, kept := start, None, origin0, kept0;
    assert outs[..i + 1] == outs[..i] + [output] && output in outs && ValidOutput(output);
    if fits {
      IndexedSettleable(request, rendered, byPath, fs.tree.files, locked, output);
    }
    if output.path !in byPath {
      return p, Some(PlanMismatch), origin, kept;
    }
    var decision := DecideOutput(fs, request, snapshot, output, byPath[output.path], locked, rendered, outs[..i], p, origin, kept, base);
    if decision.Fail? {
      return p, Some(decision.error), origin, kept;
    }
    p := Decided(p, decision);
    origin := if decision.Write? then origin + [i] else origin;
    kept := if decision.Keep? && decision.preserved.Some? then kept + [i] else kept;
  }

  /** What a decision says of its output. */
  ghost predicate Answers(d: Decision, o: OutputSpec, request: Request, files: Files, locked: Owners, faulty: bool) {
    (Settles(d) ==> !Refused(o, request, files, locked)) && Refusal(d, o, request, files, locked, faulty)
  }

  /** The outcome after one more decision that is no failure. */
  function Decided(p: Progress, d: Decision): Progress
    requires !d.Fail?
  {
    match d
    case Conflict(diagnostic, error) => p.(diagnostics := p.diagnostics + [diagnostic], conflict := FirstError(p.conflict, error))
    case Keep(preserved) => if preserved.Some? then p.(preserved := p.preserved + [preserved.value]) else p
    case Write(change) => p.(changes := p.changes + [change])
  }

  lemma TellsNext(outs: seq<OutputSpec>, o: OutputSpec, request: Request, files: Files, locked: Owners, p: Progress, before: bool,
                  d: Decision, faulty: bool)
    requires Tells(outs, request, files, locked, p, before) && (before ==> faulty) && !d.Fail?
    requires Answers(d, o, request, files, locked, faulty)
    ensures Tells(outs + [o], request, files, locked, Decided(p, d), faulty)
  {
    if d.Conflict? {
      BlamesNext(outs, o, request, files, locked, p.conflict, before, d.error, faulty);
      NamesNext(outs, o, request, files, locked, p.diagnostics, before, d.diagnostic, faulty);
    } else {
      assert forall x | x in outs + [o] :: x in outs || x == o;
      SettledTells(outs, o, request, files, locked, p, faulty);
    }
  }

  lemma SettledNotRefused(o: OutputSpec, file: RenderedFile, request: Request, files: Files, locked: Owners)
    ensures Settleable(o, file, request, files, locked) ==> !Refused(o, request, files, locked)
  {
  }

  lemma BlamesNext(outs: seq<OutputSpec>, o: OutputSpec, request: Request, files: Files, locked: Owners, conflict: Option<Error>,
                   before: bool, error: Error, faulty: bool)
    requires Blames(outs, request, files, locked, conflict, before) && (before ==> faulty)
    requires Reason(error, o, request, files, locked) || (error == TargetChanged && faulty)
    ensures Blames(outs + [o], request, files, locked, FirstError(conflict, error), faulty)
  {
    assert o in outs + [o] && forall x | x in outs :: x in outs + [o];
    if Reason(error, o, request, files, locked) {
      ReasonRefuses(error, o, request, files, locked);
    }
  }

  lemma NamesNext(outs: seq<OutputSpec>, o: OutputSpec, request: Request, files: Files, locked: Owners, diagnostics: seq<Diagnostic>,
                  before: bool, d: Diagnostic, faulty: bool)
    requires Names(outs, request, files, locked, diagnostics, before) && (before ==> faulty) && d.path == o.path
    requires !faulty ==> Refused(o, request, files, locked) && Coded(d.code, o, request, files, locked)
    ensures Names(outs + [o], request, files, locked, diagnostics + [d], faulty)
  {
    var more := diagnostics + [d];
    assert o in outs + [o] && d in more;
    forall x | x in outs && Refused(x, request, files, locked) && !faulty
      ensures Named(more, x.path)
    {
      var e :| e in diagnostics && e.path == x.path;
      assert e in more;
    }
    forall e | e in diagnostics && !faulty
      ensures exists x :: x in outs + [o] && x.path == e.path && Refused(x, request, files, locked) && Coded(e.code, x, request, files, locked)
    {
      var x :| x in outs && x.path == e.path && Refused(x, request, files, locked) && Coded(e.code, x, request, files, locked);
      assert x in outs + [o];
    }
  }

  lemma SettledTells(outs: seq<OutputSpec>, o: OutputSpec, request: Request, files: Files, locked: Owners, p: Progress, faulty: bool)
    requires Tells(outs, request, files, locked, p, false) || (faulty && Tells(outs, request, files, locked, p, true))
    requires !Refused(o, request, files, locked)
    ensures Tells(outs + [o], request, files, locked, p, faulty)
  {
    assert forall x | x in outs :: x in outs + [o];
    assert Edited(o, files, locked) ==> Refused(o, request, files, locked);
  }

  /** Adding a decision to the outcome so far. */
  lemma DecisionTraced(outs: seq<OutputSpec>, o: OutputSpec, rendered: seq<RenderedFile>, files: Files, locked: Owners,
                       p: Progress, origin: seq<nat>, kept: seq<nat>, d: Decision, file: RenderedFile)
    requires Traced(outs, rendered, files, locked, p, origin, kept) && DecisionSound(d, o, file, files, locked) && file in rendered
    requires Settles(d) ==> NothingOverlaps(files, o.path)
    ensures !d.Fail? ==>
              Traced(outs + [o], rendered, files, locked, Decided(p, d), if d.Write? then origin + [|outs|] else origin,
                     if d.Keep? && d.preserved.Some? then kept + [|outs|] else kept)
  {
    TraceSkip(outs, o, rendered, files, locked, p.changes, origin, p.preserved, kept);
    if d.Keep? {
      TraceKeep(outs, o, files, locked, p.preserved, origin, kept);
    }
    if d.Write? {
      TraceWrite(outs, o, rendered, files, locked, p.changes, origin, kept, d.change);
    }
  }

  /** Decides every desired output in turn. */
  method PrepareOutputs(fs: Filesystem, request: Request, snapshot: TargetSnapshot, rendered: seq<RenderedFile>, locked: Owners, ghost fits: bool)
    returns (p: Progress, failure: Option<Error>, ghost origin: seq<nat>, ghost kept: seq<nat>)
    requires Closed(fs.tree) && IsSnapshot(fs.tree.files, locked, snapshot.files) && RequestPathsValid(request)
    requires fits ==> AllSettleable(request, rendered, fs.tree.files, locked)
    modifies fs`faults
    ensures fs.faults >= old(fs.faults)
    ensures failure.None? ==> Traced(request.desiredOutputs, rendered, fs.tree.files, locked, p, origin, kept)
    ensures failure.None? ==> Tells(request.desiredOutputs, request, fs.tree.files, locked, p, fs.faults > old(fs.faults))
    ensures failure.Some? ==> failure.value == PlanMismatch || failure.value == DuplicateOutput
    ensures fits && (failure.Some? || p.conflict.Some?) ==> fs.faults > old(fs.faults)
  {
    p, failure, origin, kept := Progress([], [], [], None), None, [], [];
    var byPath := RenderedByPath(rendered);
    var outs := request.desiredOutputs;
    if byPath.None? {
      return p, Some(DuplicateOutput), origin, kept;
    }
    if |byPath.value| != |outs| {
      return p, Some(PlanMismatch), origin, kept;
    }
    p, failure, origin, kept := DecideOutputs(fs, request, snapshot, rendered, byPath.value, locked, fits);
  }

  /** Decides the outputs one by one, until something fails. */
  method DecideOutputs(fs: Filesystem, request: Request, snapshot: TargetSnapshot, rendered: seq<RenderedFile>, byPath: map<Path, RenderedFile>,
                       locked: Owners, ghost fits: bool)
    returns (p: Progress, failure: Option<Error>, ghost origin: seq<nat>, ghost kept: seq<nat>)
    requires Closed(fs.tree) && IsSnapshot(fs.tree.files, locked, snapshot.files) && RequestPathsValid(request)
    requires IsRenderedIndex(byPath, rendered) && (fits ==> AllSettleable(request, rendered, fs.tree.files, locked))
    modifies fs`faults
    ensures fs.faults >= old(fs.faults)
    ensures failure.None? ==> Traced(request.desiredOutputs, rendered, fs.tree.files, locked, p, origin, kept)
    ensures failure.None? ==> Tells(request.desiredOutputs, request, fs.tree.files, locked, p, fs.faults > old(fs.faults))
    ensures failure.Some? ==> failure.value == PlanMismatch
    ensures fits && (failure.Some? || p.conflict.Some?) ==> fs.faults > old(fs.faults)
  {
    p, failure, origin, kept := Progress([], [], [], None), None, [], [];
    ghost var base := fs.faults;
    var outs := request.desiredOutputs;
    for i := 0 to |outs|
      invariant fs.faults >= old(fs.faults)
      invariant Traced(outs[..i], rendered, fs.tree.files, locked, p, origin, kept)
      invariant Tells(outs[..i], request, fs.tree.files, locked, p, fs.faults > base)
      invariant failure.None? && (fits && p.conflict.Some? ==> fs.faults > old(fs.faults))
    {
      p, failure, origin, kept := PrepareNext(fs, request, snapshot, rendered, byPath, locked, i, p, origin, kept, fits, base);
      if failure.Some? {
        return;
      }
    }
    assert outs[..|outs|] == outs;
  }

  predicate Managed(o: Ownership) {
    o == Generated || o == Integration
  }

  function DesiredPaths(request: Request): set<Path> {
    set o | o in request.desiredOutputs :: o.path
  }

  predicate NoneRemoved(locked: Owners, desired: set<Path>) {
    forall q | q in locked && Managed(locked[q].ownership) :: q in desired
  }

  /** The managed files of the lock that are no longer desired. */
  predicate Removed(locked: Owners, desired: set<Path>, p: Path) {
    p in locked && Managed(locked[p].ownership) && p !in desired
  }

  /** The diagnostics name the removed files, except those not yet looked at. */
  ghost predicate NamesRemoved(locked: Owners, desired: set<Path>, pending: set<Path>, diagnostics: seq<Diagnostic>) {
    (forall d | d in diagnostics ::
       d.code == "GENERATOR_MANAGED_REMOVAL_UNPLANNED" && Removed(locked, desired, d.path) && d.path !in pending) &&
    forall q | Removed(locked, desired, q) && q !in pending :: Named(diagnostics, q)
  }

  lemma NamesRemovedNext(locked: Owners, desired: set<Path>, pending: set<Path>, diagnostics: seq<Diagnostic>, d: Diagnostic)
    requires NamesRemoved(locked, desired, pending, diagnostics) && d.path in pending && d.code == "GENERATOR_MANAGED_REMOVAL_UNPLANNED"
    ensures Removed(locked, desired, d.path) ==> NamesRemoved(locked, desired, pending - {d.path}, diagnostics + [d])
    ensures !Removed(locked, desired, d.path) ==> NamesRemoved(locked, desired, pending - {d.path}, diagnostics)
  {
    var more := diagnostics + [d];
    assert d in more;
    forall q | Named(diagnostics, q)
      ensures Named(more, q)
    {
      var e :| e in diagnostics && e.path == q;
      assert e in more;
    }
  }

  lemma NoneNamed(locked: Owners, desired: set<Path>, named: seq<Diagnostic>)
    requires NamesRemoved(locked, desired, {}, named)
    ensures named == [] <==> NoneRemoved(locked, desired)
  {
    if named != [] {
      assert Removed(locked, desired, named[0].path);
    } else {
      forall q | q in locked && Managed(locked[q].ownership)
        ensures q in desired
      {
        assert !Named(named, q);
        assert !Removed(locked, desired, q);
      }
    }
  }

  /** A managed file of the lock that is no longer desired is a conflict, of less weight than any before, and is named. */
  method CheckRemovals(locked: Owners, desired: set<Path>, start: Progress) returns (p: Progress, ghost named: seq<Diagnostic>)
    ensures p.changes == start.changes && p.preserved == start.preserved
    ensures p.conflict == if start.conflict.Some? || NoneRemoved(locked, desired) then start.conflict else Some(OwnershipConflict)
    ensures p.diagnostics == start.diagnostics + named && NamesRemoved(locked, desired, {}, named)
    ensures p.conflict.None? ==> named == []
  {
    p, named := start, [];
    var pending := locked.Keys;
    while pending != {}
      invariant pending <= locked.Keys
      invariant p.changes == start.changes && p.preserved == start.preserved
      invariant p.conflict == if start.conflict.Some? || named == [] then start.conflict else Some(OwnershipConflict)
      invariant p.diagnostics == start.diagnostics + named && NamesRemoved(locked, desired, pending, named)
      decreases pending
    {
      var q :| q in pending;
      var removal := Diagnostic("GENERATOR_MANAGED_REMOVAL_UNPLANNED", q);
      NamesRemovedNext(locked, desired, pending, named, removal);
      pending := pending - {q};
      if Managed(locked[q].ownership) && q !in desired {
        p := p.(diagnostics := p.diagnostics + [removal], conflict := FirstError(p.conflict, OwnershipConflict));
        named := named + [removal];
      }
    }
    NoneNamed(locked, desired, named);
  }

  /** The custom and forked files outside the desired outputs. */
  method UntouchedFiles(list: seq<ExistingFile>, desired: set<Path>) returns (r: seq<ExistingFile>)
    requires DistinctKeys(list, FilePath)
    ensures forall e :: e in r <==> e in list && e.path !in desired && !Managed(e.ownership)
    ensures DistinctKeys(r, FilePath)
  {
    r := [];
    for i := 0 to |list|
      invariant forall e :: e in r <==> e in list[..i] && e.path !in desired && !Managed(e.ownership)
      invariant DistinctKeys(r, FilePath)
    {
      var current := list[i];
      assert list[..i + 1] == list[..i] + [current];
      if current.path !in desired && !Managed(current.ownership) {
        forall j | 0 <= j < |r|
          ensures FilePath(r[j]) != FilePath(current)
        {
          assert r[j] in list[..i];
          var k :| 0 <= k < i && list[..i][k] == r[j];
          assert FilePath(list[k]) != FilePath(list[i]);
        }
        r := r + [current];
      }
    }
    assert list[..|list|] == list;
  }

  /** Some change brings this output to the target. */
  ghost predicate Covered(o: OutputSpec, changes: seq<FileChange>, rendered: seq<RenderedFile>, files: Files, locked: Owners) {
    exists c :: c in changes && FromOutput(c, o, rendered, files, locked)
  }

  /** Everything a successful preparation promises about the change set. */
  ghost predicate IsPrepared(files: Files, locked: Owners, request: Request, rendered: seq<RenderedFile>, p: PreparedChangeSet) {
    IsSnapshot(files, locked, p.snapshot.files) && p.snapshot.checksum == ChecksumOf(p.snapshot.files) &&
    request.targetSnapshotChecksum == p.snapshot.checksum && p.diagnostics == [] && Sorted(p.changes, ChangePath) && Sorted(p.preserved, FilePath) &&
    (forall c | c in p.changes :: exists o :: o in request.desiredOutputs && FromOutput(c, o, rendered, files, locked)) &&
    (forall o {:trigger Covered(o, p.changes, rendered, files, locked)} |
       o in request.desiredOutputs && !LockedForked(locked, o.path) :: Covered(o, p.changes, rendered, files, locked)) &&
    (forall o | o in request.desiredOutputs :: NothingOverlaps(files, o.path)) &&
    (forall e :: e in p.preserved <==> e in p.snapshot.files && !Managed(e.ownership)) &&
    (forall e | e in p.snapshot.files && Managed(e.ownership) :: e.path in DesiredPaths(request)) &&
    (DistinctKeys(request.desiredOutputs, OutputPath) ==>
       DistinctKeys(p.preserved, FilePath) && (NoneUnset(p.changes) ==> DistinctKeys(p.changes, ChangePath)))
  }

  lemma ChangesDistinct(outs: seq<OutputSpec>, rendered: seq<RenderedFile>, files: Files, locked: Owners,
                        changes: seq<FileChange>, origin: seq<nat>)
    requires ChangesTrace(outs, rendered, files, locked, changes, origin)
    requires DistinctKeys(outs, OutputPath) && NoneUnset(changes)
    ensures DistinctKeys(changes, ChangePath)
  {
    forall i, j | 0 <= i < j < |changes|
      ensures ChangePath(changes[i]) != ChangePath(changes[j])
    {
      assert changes[i] in changes && changes[j] in changes;
      assert FromOutput(changes[i], outs[origin[i]], rendered, files, locked);
      assert FromOutput(changes[j], outs[origin[j]], rendered, files, locked);
      assert OutputPath(outs[origin[i]]) != OutputPath(outs[origin[j]]);
    }
  }

  lemma KeptDistinct(outs: seq<OutputSpec>, files: Files, locked: Owners, preserved: seq<ExistingFile>, kept: seq<nat>)
    requires KeptTrace(outs, files, locked, preserved, kept) && DistinctKeys(outs, OutputPath)
    ensures DistinctKeys(preserved, FilePath)
  {
    forall i, j | 0 <= i < j < |preserved|
      ensures FilePath(preserved[i]) != FilePath(preserved[j])
    {
      assert OutputPath(outs[kept[i]]) != OutputPath(outs[kept[j]]);
    }
  }

  lemma PreservedExactly(files: Files, locked: Owners, list: seq<ExistingFile>, request: Request, rendered: seq<RenderedFile>,
                         changes: seq<FileChange>, origin: seq<nat>, preserved: seq<ExistingFile>, kept: seq<nat>, e: ExistingFile)
    requires IsSnapshot(files, locked, list)
    requires ChangesTrace(request.desiredOutputs, rendered, files, locked, changes, origin)
    requires KeptTrace(request.desiredOutputs, files, locked, preserved, kept)
    requires AllSettled(request.desiredOutputs, files, locked, origin, kept)
    requires e.path in DesiredPaths(request)
    ensures e in preserved <==> e in list && !Managed(e.ownership)
  {
    var outs := request.desiredOutputs;
    if e in preserved {
      var j :| 0 <= j < |preserved| && preserved[j] == e;
      assert e == EntryFor(files, locked, outs[kept[j]].path);
    }
    if e in list {
      var o :| o in outs && o.path == e.path;
      var k :| 0 <= k < |outs| && outs[k] == o;
      assert e == EntryFor(files, locked, e.path);
      if LockedForked(locked, o.path) {
        assert k in kept;
        var j :| 0 <= j < |kept| && kept[j] == k;
        assert preserved[j] == e;
      } else {
        assert k in origin;
        var j :| 0 <= j < |origin| && origin[j] == k;
        assert FromOutput(changes[j], outs[k], rendered, files, locked);
        assert Managed(e.ownership);
      }
    }
  }

  /** Everything a preparation needs besides working operations. */
  ghost predicate Preparable(files: Files, previous: seq<LockedFile>, request: Request, rendered: seq<RenderedFile>) {
    ValidLockFiles(previous) && AllSafe(files) &&
    exists locked, list :: IsLockIndex(previous, locked) && PreparableUnder(files, locked, list, request, rendered)
  }

  ghost predicate PreparableUnder(files: Files, locked: Owners, list: seq<ExistingFile>, request: Request, rendered: seq<RenderedFile>) {
    IsSnapshot(files, locked, list) && RequestFits(request, list) && AllSettleable(request, rendered, files, locked) &&
    NoneRemoved(locked, DesiredPaths(request))
  }

  /** There is only one lock index and one snapshot to be preparable under. */
  lemma PreparableHere(files: Files, previous: seq<LockedFile>, request: Request, rendered: seq<RenderedFile>, locked: Owners, list: seq<ExistingFile>)
    requires Preparable(files, previous, request, rendered) && IsLockIndex(previous, locked) && IsSnapshot(files, locked, list)
    ensures PreparableUnder(files, locked, list, request, rendered)
  {
    var other, entries :| IsLockIndex(previous, other) && PreparableUnder(files, other, entries, request, rendered);
    LockIndexUnique(previous, other, locked);
    SnapshotUnique(files, locked, locked, list, entries);
  }

  /**
   A conflict between the outputs and the target: some output is refused for this reason or a managed file is no longer
   asked for; no edited file is passed over for a lesser reason; and the diagnostics name exactly what is refused or
   no longer asked for.
   */
  ghost predicate ConflictExplained(request: Request, files: Files, locked: Owners, e: Error, diagnostics: seq<Diagnostic>, faulty: bool) {
    ((exists o :: o in request.desiredOutputs && Reason(e, o, request, files, locked)) ||
     (e == OwnershipConflict && !NoneRemoved(locked, DesiredPaths(request))) || (e == TargetChanged && faulty)) &&
    (!faulty ==>
       (e == OwnershipConflict ==>
          forall o | o in request.desiredOutputs :: InTheWay(o, request, files) || !Edited(o, files, locked)) &&
       (forall d | d in diagnostics ::
          if d.code == "GENERATOR_MANAGED_REMOVAL_UNPLANNED" then Removed(locked, DesiredPaths(request), d.path)
          else RefusedWith(request, files, locked, d)) &&
       forall q | RefusedPath(request, files, locked, q) || Removed(locked, DesiredPaths(request), q) :: Named(diagnostics, q))
  }

  ghost predicate RefusedWith(request: Request, files: Files, locked: Owners, d: Diagnostic) {
    exists o :: o in request.desiredOutputs && o.path == d.path && Refused(o, request, files, locked) && Coded(d.code, o, request, files, locked)
  }

  ghost predicate RefusedPath(request: Request, files: Files, locked: Owners, p: Path) {
    exists o :: o in request.desiredOutputs && o.path == p && Refused(o, request, files, locked)
  }

  /** What the error of a preparation says. */
  ghost predicate RefusalSound(files: Files, locked: Owners, request: Request, e: Error, p: PreparedChangeSet, faulty: bool) {
    match e
    case OwnershipConflict => ConflictExplained(request, files, locked, e, p.diagnostics, faulty)
    case GeneratedModified => ConflictExplained(request, files, locked, e, p.diagnostics, faulty)
    case IntegrationRegion => ConflictExplained(request, files, locked, e, p.diagnostics, faulty)
    case TargetChanged => faulty || (NotAsAsked(p.diagnostics) && (request.targetSnapshotChecksum != ChecksumOf(p.snapshot.files) ||
                                                                   !IsSortOf(p.snapshot.files, request.existingFiles, FilePath)))
    case InvalidInput => p.diagnostics == [] || NotAsAsked(p.diagnostics)
    case _ => p.diagnostics == [] && (e == TargetUnsafe || e == PlanMismatch || e == DuplicateOutput)
  }

  predicate NotAsAsked(diagnostics: seq<Diagnostic>) {
    diagnostics == [Diagnostic("GENERATOR_TARGET_SNAPSHOT_CHANGED", "")]
  }

  predicate IsConflict(e: Error) {
    e == OwnershipConflict || e == GeneratedModified || e == IntegrationRegion
  }

  lemma DiagnosticTold(files: Files, locked: Owners, request: Request, told: seq<Diagnostic>, named: seq<Diagnostic>, d: Diagnostic)
    requires Names(request.desiredOutputs, request, files, locked, told, false) && NamesRemoved(locked, DesiredPaths(request), {}, named)
    requires d in told + named
    ensures if d.code == "GENERATOR_MANAGED_REMOVAL_UNPLANNED" then Removed(locked, DesiredPaths(request), d.path)
            else RefusedWith(request, files, locked, d)
  {
    if d in told {
      var o :| o in request.desiredOutputs && o.path == d.path && Refused(o, request, files, locked) && Coded(d.code, o, request, files, locked);
      assert d.code != "GENERATOR_MANAGED_REMOVAL_UNPLANNED";
    } else {
      assert d in named;
    }
  }

  lemma RefusalNamed(files: Files, locked: Owners, request: Request, told: seq<Diagnostic>, named: seq<Diagnostic>, q: Path)
    requires Names(request.desiredOutputs, request, files, locked, told, false) && NamesRemoved(locked, DesiredPaths(request), {}, named)
    requires RefusedPath(request, files, locked, q) || Removed(locked, DesiredPaths(request), q)
    ensures Named(told + named, q)
  {
    assert Named(told, q) || Named(named, q);
    var d :| d in told + named && d.path == q;
  }

  lemma RefusalTold(files: Files, locked: Owners, request: Request, told: Progress, checked: Progress, named: seq<Diagnostic>, faulty: bool)
    requires Tells(request.desiredOutputs, request, files, locked, told, faulty) && checked.conflict.Some?
    requires checked.conflict == if told.conflict.Some? || NoneRemoved(locked, DesiredPaths(request)) then told.conflict
                                 else Some(OwnershipConflict)
    requires checked.diagnostics == told.diagnostics + named && NamesRemoved(locked, DesiredPaths(request), {}, named)
    ensures ConflictExplained(request, files, locked, checked.conflict.value, checked.diagnostics, faulty)
  {
    if !faulty {
      forall d | d in checked.diagnostics
        ensures if d.code == "GENERATOR_MANAGED_REMOVAL_UNPLANNED" then Removed(locked, DesiredPaths(request), d.path)
                else RefusedWith(request, files, locked, d)
      {
        DiagnosticTold(files, locked, request, told.diagnostics, named, d);
      }
      forall q | RefusedPath(request, files, locked, q) || Removed(locked, DesiredPaths(request), q)
        ensures Named(checked.diagnostics, q)
      {
        RefusalNamed(files, locked, request, told.diagnostics, named, q);
      }
    }
  }

  /** A request that no longer matches the target leaves a diagnostic beside the snapshot. */
  method PrepareTarget(fs: Filesystem, request: Request, rendered: seq<RenderedFile>, previous: seq<LockedFile>)
    returns (p: PreparedChangeSet, failure: Option<Error>, ghost locked: Owners)
    requires Closed(fs.tree)
    modifies fs`faults, fs`seen
    ensures fs.faults >= old(fs.faults) && old(fs.seen) <= fs.seen
    ensures failure.Some? && Preparable(fs.tree.files, previous, request, rendered) ==> fs.faults > old(fs.faults)
    ensures failure.None? ==> IsLockIndex(previous, locked) && IsPrepared(fs.tree.files, locked, request, rendered, p) &&
                              AllSafe(fs.tree.files) && RequestPathsValid(request)
    ensures failure.Some? ==> RefusalSound(fs.tree.files, locked, request, failure.value, p, fs.faults > old(fs.faults)) &&
                              (IsConflict(failure.value) ==> IsLockIndex(previous, locked))
  {
    locked := map[];
    var inspected := InspectTarget(fs, previous);
    if inspected.Err? {
      return NothingPrepared, Some(inspected.error), locked;
    }
    var snapshot := inspected.value;
    ghost var fits := Preparable(fs.tree.files, previous, request, rendered);
    locked := SomeIndex(previous);
    SnapshotDistinct(fs.tree.files, locked, snapshot.files);
    if fits {
      PreparableHere(fs.tree.files, previous, request, rendered, locked, snapshot.files);
    }
    var invalid := ValidateFileRequest(request, snapshot);
    if invalid.Some? {
      return PreparedChangeSet(snapshot, [], [], [Diagnostic("GENERATOR_TARGET_SNAPSHOT_CHANGED", "")]), invalid, locked;
    }
    var index := LockedFilesByPath(previous);
    if index.Err? {
      return NothingPrepared, Some(InvalidInput), locked;
    }
    LockIndexUnique(previous, locked, index.value);
    locked := index.value;
    p, failure := PrepareUnder(fs, request, rendered, snapshot, index.value, fits);
  }

  /** The preparation once request, target and lock are known to fit. */
  method PrepareUnder(fs: Filesystem, request: Request, rendered: seq<RenderedFile>, snapshot: TargetSnapshot, locked: Owners, ghost fits: bool)
    returns (p: PreparedChangeSet, failure: Option<Error>)
    requires Closed(fs.tree) && IsSnapshot(fs.tree.files, locked, snapshot.files) && snapshot.checksum == ChecksumOf(snapshot.files)
    requires DistinctKeys(snapshot.files, FilePath) && RequestFits(request, snapshot.files)
    requires fits ==> AllSettleable(request, rendered, fs.tree.files, locked) && NoneRemoved(locked, DesiredPaths(request))
    modifies fs`faults
    ensures fs.faults >= old(fs.faults)
    ensures failure.Some? && fits ==> fs.faults > old(fs.faults)
    ensures failure.None? ==> IsPrepared(fs.tree.files, locked, request, rendered, p)
    ensures failure.Some? ==> RefusalSound(fs.tree.files, locked, request, failure.value, p, fs.faults > old(fs.faults))
  {
    ghost var files := fs.tree.files;
    var progress, broken, origin, kept := PrepareOutputs(fs, request, snapshot, rendered, locked, fits);
    if broken.Some? {
      return NothingPrepared, broken;
    }
    var desired := DesiredPaths(request);
    var checked, named := CheckRemovals(locked, desired, progress);
    var untouched := UntouchedFiles(snapshot.files, desired);
    var changes := Sort(checked.changes, ChangePath);
    var preserved := Sort(checked.preserved + untouched, FilePath);
    p := PreparedChangeSet(snapshot, changes, preserved, checked.diagnostics);
    failure := checked.conflict;
    if failure.Some? {
      RefusalTold(files, locked, request, progress, checked, named, fs.faults > old(fs.faults));
    } else {
      PreparationComplete(files, locked, request, rendered, snapshot, checked.changes, origin, checked.preserved, kept,
                          untouched, changes, preserved);
    }
  }

  lemma SnapshotDistinct(files: Files, locked: Owners, list: seq<ExistingFile>)
    requires IsSnapshot(files, locked, list)
    ensures DistinctKeys(list, FilePath)
  {
    forall i, j | 0 <= i < j < |list|
      ensures FilePath(list[i]) != FilePath(list[j])
    {
      LessTrichotomy(FilePath(list[i]), FilePath(list[j]));
    }
  }

  lemma PreparationComplete(files: Files, locked: Owners, request: Request, rendered: seq<RenderedFile>, snapshot: TargetSnapshot,
                            changes: seq<FileChange>, origin: seq<nat>, kept: seq<ExistingFile>, keptFrom: seq<nat>,
                            untouched: seq<ExistingFile>, sortedChanges: seq<FileChange>, preserved: seq<ExistingFile>)
    requires IsSnapshot(files, locked, snapshot.files) && snapshot.checksum == ChecksumOf(snapshot.files)
    requires request.targetSnapshotChecksum == snapshot.checksum
    requires ChangesTrace(request.desiredOutputs, rendered, files, locked, changes, origin)
    requires KeptTrace(request.desiredOutputs, files, locked, kept, keptFrom)
    requires AllSettled(request.desiredOutputs, files, locked, origin, keptFrom)
    requires NoneRemoved(locked, DesiredPaths(request))
    requires forall o | o in request.desiredOutputs :: NothingOverlaps(files, o.path)
    requires DistinctKeys(untouched, FilePath)
    requires forall e :: e in untouched <==> e in snapshot.files && e.path !in DesiredPaths(request) && !Managed(e.ownership)
    requires IsSortOf(sortedChanges, changes, ChangePath) && IsSortOf(preserved, kept + untouched, FilePath)
    ensures IsPrepared(files, locked, request, rendered, PreparedChangeSet(snapshot, sortedChanges, preserved, []))
  {
    ChangesCover(files, locked, request, rendered, changes, origin, kept, keptFrom, sortedChanges);
    PreservedCover(files, locked, request, rendered, snapshot.files, changes, origin, kept, keptFrom, untouched, preserved);
    DistinctPreparation(files, locked, request, rendered, changes, origin, kept, keptFrom, untouched, sortedChanges, preserved);
    forall e | e in snapshot.files && Managed(e.ownership)
      ensures e.path in DesiredPaths(request)
    {
      assert e == EntryFor(files, locked, e.path);
    }
  }

  lemma ChangesCover(files: Files, locked: Owners, request: Request, rendered: seq<RenderedFile>,
                     changes: seq<FileChange>, origin: seq<nat>, kept: seq<ExistingFile>, keptFrom: seq<nat>, sorted: seq<FileChange>)
    requires ChangesTrace(request.desiredOutputs, rendered, files, locked, changes, origin)
    requires AllSettled(request.desiredOutputs, files, locked, origin, keptFrom)
    requires IsSortOf(sorted, changes, ChangePath)
    ensures forall c | c in sorted :: exists o :: o in request.desiredOutputs && FromOutput(c, o, rendered, files, locked)
    ensures forall o | o in request.desiredOutputs && !LockedForked(locked, o.path) :: Covered(o, sorted, rendered, files, locked)
  {
    var outs := request.desiredOutputs;
    SortKeepsMembers(sorted, changes, ChangePath);
    forall c | c in sorted
      ensures exists o :: o in outs && FromOutput(c, o, rendered, files, locked)
    {
      assert c in changes;
      var j :| 0 <= j < |changes| && changes[j] == c;
      assert outs[origin[j]] in outs;
    }
    forall o | o in outs && !LockedForked(locked, o.path)
      ensures Covered(o, sorted, rendered, files, locked)
    {
      var k :| 0 <= k < |outs| && outs[k] == o;
      assert k in origin;
      var j :| 0 <= j < |origin| && origin[j] == k;
      assert changes[j] in changes;
    }
  }

  lemma PreservedCover(files: Files, locked: Owners, request: Request, rendered: seq<RenderedFile>, list: seq<ExistingFile>,
                       changes: seq<FileChange>, origin: seq<nat>, kept: seq<ExistingFile>, keptFrom: seq<nat>,
                       untouched: seq<ExistingFile>, preserved: seq<ExistingFile>)
    requires IsSnapshot(files, locked, list)
    requires ChangesTrace(request.desiredOutputs, rendered, files, locked, changes, origin)
    requires KeptTrace(request.desiredOutputs, files, locked, kept, keptFrom)
    requires AllSettled(request.desiredOutputs, files, locked, origin, keptFrom)
    requires forall e :: e in untouched <==> e in list && e.path !in DesiredPaths(request) && !Managed(e.ownership)
    requires IsSortOf(preserved, kept + untouched, FilePath)
    ensures forall e :: e in preserved <==> e in list && !Managed(e.ownership)
  {
    SortKeepsMembers(preserved, kept + untouched, FilePath);
    forall e
      ensures e in preserved <==> e in list && !Managed(e.ownership)
    {
      assert e in preserved <==> e in kept || e in untouched;
      if e.path in DesiredPaths(request) {
        PreservedExactly(files, locked, list, request, rendered, changes, origin, kept, keptFrom, e);
      } else {
        KeptDesired(request, files, locked, kept, keptFrom, e);
      }
    }
  }

  lemma DistinctPreparation(files: Files, locked: Owners, request: Request, rendered: seq<RenderedFile>,
                            changes: seq<FileChange>, origin: seq<nat>, kept: seq<ExistingFile>, keptFrom: seq<nat>,
                            untouched: seq<ExistingFile>, sortedChanges: seq<FileChange>, preserved: seq<ExistingFile>)
    requires ChangesTrace(request.desiredOutputs, rendered, files, locked, changes, origin)
    requires KeptTrace(request.desiredOutputs, files, locked, kept, keptFrom)
    requires DistinctKeys(untouched, FilePath) && forall e | e in untouched :: e.path !in DesiredPaths(request)
    requires IsSortOf(sortedChanges, changes, ChangePath) && IsSortOf(preserved, kept + untouched, FilePath)
    ensures DistinctKeys(request.desiredOutputs, OutputPath) ==>
              DistinctKeys(preserved, FilePath) && (NoneUnset(sortedChanges) ==> DistinctKeys(sortedChanges, ChangePath))
  {
    if DistinctKeys(request.desiredOutputs, OutputPath) {
      KeptDistinct(request.desiredOutputs, files, locked, kept, keptFrom);
      AppendDistinct(request, files, locked, kept, keptFrom, untouched);
      DistinctKeysPermute(kept + untouched, preserved, FilePath);
      if NoneUnset(sortedChanges) {
        SortKeepsMembers(sortedChanges, changes, ChangePath);
        ChangesDistinct(request.desiredOutputs, rendered, files, locked, changes, origin);
        DistinctKeysPermute(changes, sortedChanges, ChangePath);
      }
    }
  }

  lemma KeptDesired(request: Request, files: Files, locked: Owners, kept: seq<ExistingFile>, keptFrom: seq<nat>, e: ExistingFile)
    requires KeptTrace(request.desiredOutputs, files, locked, kept, keptFrom)
    ensures e in kept ==> e.path in DesiredPaths(request)
  {
    if e in kept {
      var j :| 0 <= j < |kept| && kept[j] == e;
      assert request.desiredOutputs[keptFrom[j]] in request.desiredOutputs;
    }
  }

  lemma AppendDistinct(request: Request, files: Files, locked: Owners, kept: seq<ExistingFile>, keptFrom: seq<nat>, untouched: seq<ExistingFile>)
    requires KeptTrace(request.desiredOutputs, files, locked, kept, keptFrom)
    requires DistinctKeys(kept, FilePath) && DistinctKeys(untouched, FilePath)
    requires forall e | e in untouched :: e.path !in DesiredPaths(request)
    ensures DistinctKeys(kept + untouched, FilePath)
  {
    forall i, j | 0 <= i < |kept| && 0 <= j < |untouched|
      ensures FilePath(kept[i]) != FilePath(untouched[j])
    {
      KeptDesired(request, files, locked, kept, keptFrom, kept[i]);
      assert untouched[j] in untouched;
    }
  }
}
