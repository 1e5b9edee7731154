/**
 The snapshot a change set will leave behind, predicted before anything is written, and why it is the one
 the target then shows.
 */
module Snapshots {
  import opened Digests
  import opened Ordering
  import opened Paths
  import opened Region
  import opened Model
  import opened Overlay
  import opened Inspect
  import opened Target

  function EntryOfChange(c: FileChange): ExistingFile {
    ExistingFile(c.path, c.ownership, c.sha)
  }

  /** `e` is what the snapshot will say: a change's result, or an earlier entry that no change touches. */
  ghost predicate Predicted(before: seq<ExistingFile>, changes: seq<FileChange>, e: ExistingFile) {
    (exists c :: c in changes && e == EntryOfChange(c)) || (e in before && !ChangesPath(changes, e.path))
  }

  ghost predicate IsPrediction(before: seq<ExistingFile>, changes: seq<FileChange>, list: seq<ExistingFile>) {
    StrictlySorted(list, FilePath) && forall e :: e in list <==> Predicted(before, changes, e)
  }

  method SnapshotAfterChanges(before: TargetSnapshot, changes: seq<FileChange>) returns (r: TargetSnapshot)
    ensures r.checksum == ChecksumOf(r.files)
    ensures DistinctKeys(before.files, FilePath) && DistinctKeys(changes, ChangePath) ==>
              IsPrediction(before.files, changes, r.files)
  {
    var files: map<Path, ExistingFile> := map[];
    ghost var distinct := DistinctKeys(before.files, FilePath) && DistinctKeys(changes, ChangePath);
    for i := 0 to |before.files|
      invariant forall p | p in files :: files[p].path == p
      invariant distinct ==> forall e: ExistingFile :: e.path in files && files[e.path] == e <==> e in before.files[..i]
    {
      assert before.files[..i + 1] == before.files[..i] + [before.files[i]];
      if distinct {
        NotEarlier(before.files, i);
      }
      files := files[before.files[i].path := before.files[i]];
    }
    assert before.files[..|before.files|] == before.files;
    for i := 0 to |changes|
      invariant forall p | p in files :: files[p].path == p
      invariant distinct ==> forall e: ExistingFile :: e.path in files && files[e.path] == e <==> Predicted(before.files, changes[..i], e)
    {
      assert changes[..i + 1] == changes[..i] + [changes[i]];
      if distinct {
        PredictedStep(before.files, changes, i);
      }
      files := files[changes[i].path := EntryOfChange(changes[i])];
    }
    assert changes[..|changes|] == changes;
    var list := ValuesOf(files);
    var sorted := Sort(list, FilePath);
    SortKeepsMembers(sorted, list, FilePath);
    SortOfDistinctIsStrict(sorted, list, FilePath);
    return TargetSnapshot(sorted, ChecksumOf(sorted));
  }

  lemma NotEarlier(list: seq<ExistingFile>, i: nat)
    requires DistinctKeys(list, FilePath) && i < |list|
    ensures forall e | e in list[..i] :: e.path != list[i].path
  {
    forall e | e in list[..i]
      ensures e.path != list[i].path
    {
      var k :| 0 <= k < i && list[k] == e;
      assert FilePath(list[k]) != FilePath(list[i]);
    }
  }

  lemma PredictedStep(before: seq<ExistingFile>, changes: seq<FileChange>, i: nat)
    requires DistinctKeys(changes, ChangePath) && i < |changes|
    ensures forall e :: Predicted(before, changes[..i] + [changes[i]], e) <==>
                        e == EntryOfChange(changes[i]) || (Predicted(before, changes[..i], e) && e.path != changes[i].path)
  {
    forall c | c in changes[..i]
      ensures c.path != changes[i].path
    {
      var k :| 0 <= k < i && changes[k] == c;
      assert ChangePath(changes[k]) != ChangePath(changes[i]);
    }
    var upTo := changes[..i] + [changes[i]];
    assert forall c :: c in upTo <==> c in changes[..i] || c == changes[i];
    forall e: ExistingFile
      ensures ChangesPath(upTo, e.path) <==> ChangesPath(changes[..i], e.path) || e.path == changes[i].path
    {
    }
  }

  /** The entries of a path-indexed map, in no particular order. */
  method ValuesOf(files: map<Path, ExistingFile>) returns (list: seq<ExistingFile>)
    requires forall p | p in files :: files[p].path == p
    ensures DistinctKeys(list, FilePath)
    ensures forall e :: e in list <==> e.path in files && files[e.path] == e
  {
    list := [];
    var pending := files.Keys;
    while pending != {}
      invariant pending <= files.Keys
      invariant DistinctKeys(list, FilePath)
      invariant forall e :: e in list <==> e.path in files && files[e.path] == e && e.path !in pending
      decreases pending
    {
      var p :| p in pending;
      forall j | 0 <= j < |list|
        ensures FilePath(list[j]) != p
      {
        assert list[j] in list;
      }
      list := list + [files[p]];
      pending := pending - {p};
    }
  }

  // ---------------------------------------------------------------- prediction and reality

  ghost predicate OneEntryPerPath(list: seq<ExistingFile>) {
    forall a, b | a in list && b in list && a.path == b.path :: a == b
  }

  ghost function OwnersFrom(list: seq<ExistingFile>): Owners
    requires OneEntryPerPath(list)
  {
    map e | e in list :: e.path := BareLock(e.path, e.ownership, NoDigest)
  }

  lemma SortedOnePerPath(list: seq<ExistingFile>)
    requires StrictlySorted(list, FilePath)
    ensures OneEntryPerPath(list)
  {
    forall a, b | a in list && b in list && a.path == b.path
      ensures a == b
    {
      var i :| 0 <= i < |list| && list[i] == a;
      var j :| 0 <= j < |list| && list[j] == b;
      LessTrichotomy(FilePath(list[i]), FilePath(list[j]));
    }
  }

  /** A strictly sorted list that covers the files with the right digests is a snapshot of them. */
  lemma ListMatches(files: Files, list: seq<ExistingFile>)
    requires StrictlySorted(list, FilePath)
    requires forall e | e in list :: e.path in files && e.sha == Sha256(files[e.path])
    requires forall p | p in files :: exists e :: e in list && e.path == p
    ensures Matches(files, list)
  {
    SortedOnePerPath(list);
    var owners := OwnersFrom(list);
    forall e | e in list
      ensures e == EntryFor(files, owners, e.path)
    {
    }
    assert IsSnapshot(files, owners, list);
  }

  /** The digests the changes announce are those of what they write. */
  predicate DigestsHold(changes: seq<FileChange>) {
    forall c | c in changes && c.action != Unchanged :: c.sha == Sha256(c.bytes)
  }

  lemma AfterChange(files: Files, changes: seq<FileChange>, c: FileChange)
    requires DistinctKeys(changes, ChangePath) && DistinctKeys(Effective(changes), ChangePath) && c in changes
    ensures At(Overlaid(files, Effective(changes)), c.path) == if c.action == Unchanged then At(files, c.path) else Some(c.bytes)
  {
    if c.action == Unchanged {
      forall d | d in Effective(changes)
        ensures d.path != c.path
      {
        var i :| 0 <= i < |changes| && changes[i] == c;
        var j :| 0 <= j < |changes| && changes[j] == d;
        assert ChangePath(changes[i]) != ChangePath(changes[j]);
      }
      OverlaidElsewhere(files, Effective(changes), c.path);
    } else {
      OverlaidAt(files, Effective(changes), c);
    }
  }

  /** The changes fit the files they were prepared against. */
  ghost predicate ChangesFit(files: Files, changes: seq<FileChange>) {
    DistinctKeys(changes, ChangePath) && forall c | c in changes ::
      c.action != Unset && (c.action == Created <==> c.path !in files) &&
      (c.action == Unchanged ==> c.sha == Sha256(files[c.path])) &&
      (c.action == Updated ==> c.previousSha == Sha256(files[c.path]))
  }

  lemma PreparedFits(files: Files, locked: Owners, request: Request, rendered: seq<RenderedFile>, p: PreparedChangeSet)
    requires IsPrepared(files, locked, request, rendered, p) && NoneUnset(p.changes)
    requires DistinctKeys(request.desiredOutputs, OutputPath)
    ensures ChangesFit(files, p.changes)
  {
    forall c | c in p.changes
      ensures (c.action == Created <==> c.path !in files) && (c.action == Unchanged ==> c.sha == Sha256(files[c.path])) &&
              (c.action == Updated ==> c.previousSha == Sha256(files[c.path]))
    {
      var o :| o in request.desiredOutputs && FromOutput(c, o, rendered, files, locked);
      OneChangeFits(c, o, rendered, files, locked);
    }
  }

  predicate MergeSpecsValid(request: Request) {
    forall o | o in request.desiredOutputs && o.ownership == Integration :: ValidMergeSpec(o.merge)
  }

  /** With valid merge specs every change was really filled in. */
  lemma AllFilledIn(base: Files, locked: Owners, request: Request, rendered: seq<RenderedFile>, p: PreparedChangeSet)
    requires IsPrepared(base, locked, request, rendered, p) && MergeSpecsValid(request)
    ensures NoneUnset(p.changes)
  {
    forall c | c in p.changes
      ensures c.action != Unset
    {
      var o :| o in request.desiredOutputs && FromOutput(c, o, rendered, base, locked);
    }
  }

  lemma OneChangeFits(c: FileChange, o: OutputSpec, rendered: seq<RenderedFile>, files: Files, locked: Owners)
    requires FromOutput(c, o, rendered, files, locked) && c.action != Unset
    ensures c.path == o.path && c.ownership == o.ownership && Managed(c.ownership)
    ensures c.action == Created <==> c.path !in files
    ensures c.action == Unchanged ==> c.sha == Sha256(files[c.path])
    ensures c.path in files ==> c.path in locked && locked[c.path].ownership == c.ownership
    ensures c.previousSha == if c.path in files then Sha256(files[c.path]) else NoDigest
  {
    var file :| file in rendered && IsChangeFor(c, o, file, files, locked);
  }

  /** A prediction made from a fitting change set is the snapshot of the target after the commit. */
  lemma PredictionComesTrue(files: Files, locked: Owners, before: seq<ExistingFile>, changes: seq<FileChange>, list: seq<ExistingFile>)
    requires IsSnapshot(files, locked, before) && ChangesFit(files, changes)
    requires DistinctKeys(Effective(changes), ChangePath)
    requires IsPrediction(before, changes, list) && DigestsHold(changes)
    ensures Matches(Overlaid(files, Effective(changes)), list)
  {
    var after := Overlaid(files, Effective(changes));
    forall e | e in list
      ensures e.path in after && e.sha == Sha256(after[e.path])
    {
      assert Predicted(before, changes, e);
      if c :| c in changes && e == EntryOfChange(c) {
        AfterChange(files, changes, c);
      } else {
        assert !ChangesPath(Effective(changes), e.path);
        OverlaidElsewhere(files, Effective(changes), e.path);
      }
    }
    forall q | q in after
      ensures exists e :: e in list && e.path == q
    {
      if c :| c in changes && c.path == q {
        assert Predicted(before, changes, EntryOfChange(c));
      } else {
        assert !ChangesPath(changes, q) && !ChangesPath(Effective(changes), q);
        OverlaidElsewhere(files, Effective(changes), q);
        assert Predicted(before, changes, EntryFor(files, locked, q));
      }
    }
    ListMatches(after, list);
  }
}
