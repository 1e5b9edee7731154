/**
 The acceptance side: whether a manifest, an ownership lock and the plan they were generated from close over one
 another, so that the run may be completed.
 */
module Semantics {
  import opened Digests
  import opened Ordering
  import opened Paths
  import opened Model
  import opened Target
  import opened Artifacts

  // ---------------------------------------------------------------- comparing lists regardless of order

  function FoldChar(c: char): char {
    if 'A' <= c <= 'Z' then c - 'A' + 'a' else c
  }

  /** Case folding; identifiers are ASCII. */
  function Fold(s: string): (r: string)
    ensures |r| == |s|
  {
    seq(|s|, i requires 0 <= i < |s| => FoldChar(s[i]))
  }

  ghost predicate NeighboursApart<T(!new)>(sorted: seq<T>, key: T -> string) {
    forall i | 1 <= i < |sorted| :: Fold(key(sorted[i - 1])) != Fold(key(sorted[i]))
  }

  /** In some sorted arrangement no two neighbours have keys that differ only in case. */
  ghost predicate FoldsApart<T(!new)>(items: seq<T>, key: T -> string) {
    exists sorted :: IsSortOf(sorted, items, key) && NeighboursApart(sorted, key)
  }

  ghost predicate FoldDistinct<T(!new)>(items: seq<T>, key: T -> string) {
    forall i, j | 0 <= i < j < |items| :: Fold(key(items[i])) != Fold(key(items[j]))
  }

  /** The verdict of the comparison. */
  ghost predicate SemanticallyEqual<T(!new)>(left: seq<T>, right: seq<T>, key: T -> string) {
    multiset(left) == multiset(right) && FoldsApart(left, key)
  }

  /** Sorted with neighbours apart, all keys are distinct. */
  lemma ApartIsStrict<T(!new)>(sorted: seq<T>, key: T -> string)
    requires Sorted(sorted, key) && NeighboursApart(sorted, key)
    ensures DistinctKeys(sorted, key)
  {
    forall i, j | 0 <= i < j < |sorted|
      ensures key(sorted[i]) != key(sorted[j])
    {
      assert Fold(key(sorted[i + 1 - 1])) != Fold(key(sorted[i + 1]));
      LessTrichotomy(key(sorted[i]), key(sorted[i + 1]));
      LessTrichotomy(key(sorted[i + 1]), key(sorted[j]));
    }
  }

  /** Accepted lists have pairwise distinct keys and are permutations of each other. */
  lemma AcceptedAreDistinct<T(!new)>(left: seq<T>, right: seq<T>, key: T -> string)
    requires SemanticallyEqual(left, right, key)
    ensures DistinctKeys(left, key) && DistinctKeys(right, key) && multiset(left) == multiset(right)
  {
    var sorted :| IsSortOf(sorted, left, key) && NeighboursApart(sorted, key);
    ApartIsStrict(sorted, key);
    DistinctKeysPermute(sorted, left, key);
    DistinctKeysPermute(sorted, right, key);
  }

  /** Every permutation of a list whose keys also differ regardless of case is accepted. */
  lemma FoldDistinctAccepted<T(!new)>(left: seq<T>, right: seq<T>, key: T -> string)
    requires multiset(left) == multiset(right) && FoldDistinct(left, key)
    ensures SemanticallyEqual(left, right, key)
  {
    var sorted := SortExists(left, key);
    var folded := (x: T) => Fold(key(x));
    assert DistinctKeys(left, folded);
    DistinctKeysPermute(left, sorted, folded);
    assert forall i | 1 <= i < |sorted| :: folded(sorted[i - 1]) != folded(sorted[i]);
  }

  /** The arrangement of either list does not matter, nor which of the two comes first. */
  lemma OrderDoesNotMatter<T(!new)>(left: seq<T>, right: seq<T>, left': seq<T>, right': seq<T>, key: T -> string)
    requires multiset(left) == multiset(left') && multiset(right) == multiset(right')
    ensures SemanticallyEqual(left, right, key) <==> SemanticallyEqual(left', right', key)
    ensures SemanticallyEqual(left, right, key) <==> SemanticallyEqual(right', left', key)
  {
    ApartPermuted(left, left', key);
    if multiset(left) == multiset(right) {
      ApartPermuted(left, right', key);
    }
  }

  lemma ApartPermuted<T(!new)>(a: seq<T>, b: seq<T>, key: T -> string)
    requires multiset(a) == multiset(b)
    ensures FoldsApart(a, key) <==> FoldsApart(b, key)
  {
    if FoldsApart(a, key) {
      var sorted :| IsSortOf(sorted, a, key) && NeighboursApart(sorted, key);
      assert IsSortOf(sorted, b, key);
    }
    if FoldsApart(b, key) {
      var sorted :| IsSortOf(sorted, b, key) && NeighboursApart(sorted, key);
      assert IsSortOf(sorted, a, key);
    }
  }

  /** Between any two keys that differ only in case another one sorts. */
  ghost predicate Interleaved<T(!new)>(items: seq<T>, key: T -> string) {
    forall a, b | a in items && b in items && Less(key(a), key(b)) && Fold(key(a)) == Fold(key(b)) ::
      exists c :: c in items && Less(key(a), key(c)) && Less(key(c), key(b))
  }

  /** What the comparison of neighbours really asks for: distinct keys, and none that differ only in case next to each other. */
  lemma FoldsApartExactly<T(!new)>(items: seq<T>, key: T -> string)
    ensures FoldsApart(items, key) <==> DistinctKeys(items, key) && Interleaved(items, key)
  {
    if FoldsApart(items, key) {
      var sorted :| IsSortOf(sorted, items, key) && NeighboursApart(sorted, key);
      ApartIsStrict(sorted, key);
      DistinctKeysPermute(sorted, items, key);
      SortKeepsMembers(sorted, items, key);
      ApartInterleaves(sorted, key);
    }
    if DistinctKeys(items, key) && Interleaved(items, key) {
      var sorted := SortExists(items, key);
      SortOfDistinctIsStrict(sorted, items, key);
      SortKeepsMembers(sorted, items, key);
      InterleavedIsApart(sorted, key);
    }
  }

  lemma ApartInterleaves<T(!new)>(sorted: seq<T>, key: T -> string)
    requires Sorted(sorted, key) && NeighboursApart(sorted, key)
    ensures Interleaved(sorted, key)
  {
    ApartIsStrict(sorted, key);
    forall a, b | a in sorted && b in sorted && Less(key(a), key(b)) && Fold(key(a)) == Fold(key(b))
      ensures exists c :: c in sorted && Less(key(a), key(c)) && Less(key(c), key(b))
    {
      var i :| 0 <= i < |sorted| && sorted[i] == a;
      var j :| 0 <= j < |sorted| && sorted[j] == b;
      LessTrichotomy(key(a), key(b));
      assert i < j && Fold(key(sorted[i + 1 - 1])) != Fold(key(sorted[i + 1]));
      assert key(sorted[i]) != key(sorted[i + 1]) && key(sorted[i + 1]) != key(sorted[j]);
      LessTrichotomy(key(a), key(sorted[i + 1]));
      LessTrichotomy(key(sorted[i + 1]), key(b));
    }
  }

  lemma InterleavedIsApart<T(!new)>(sorted: seq<T>, key: T -> string)
    requires StrictlySorted(sorted, key) && Interleaved(sorted, key)
    ensures NeighboursApart(sorted, key)
  {
    forall i | 1 <= i < |sorted|
      ensures Fold(key(sorted[i - 1])) != Fold(key(sorted[i]))
    {
      assert Less(key(sorted[i - 1]), key(sorted[i]));
      forall c | c in sorted
        ensures !(Less(key(sorted[i - 1]), key(c)) && Less(key(c), key(sorted[i])))
      {
        NothingBetween(sorted, i, c, key);
      }
    }
  }

  lemma NothingBetween<T(!new)>(sorted: seq<T>, i: nat, c: T, key: T -> string)
    requires StrictlySorted(sorted, key) && 1 <= i < |sorted| && c in sorted
    ensures !(Less(key(sorted[i - 1]), key(c)) && Less(key(c), key(sorted[i])))
  {
    var k :| 0 <= k < |sorted| && sorted[k] == c;
    LessTrichotomy(key(c), key(sorted[i - 1]));
    LessTrichotomy(key(c), key(sorted[i]));
    if k < i - 1 {
      assert Less(key(sorted[k]), key(sorted[i - 1]));
    } else if i < k {
      assert Less(key(sorted[i]), key(sorted[k]));
    }
  }

  /** The exact verdict: a permutation with distinct keys, none that differ only in case without another between them. */
  lemma SemanticallyEqualExactly<T(!new)>(left: seq<T>, right: seq<T>, key: T -> string)
    ensures SemanticallyEqual(left, right, key) <==>
              multiset(left) == multiset(right) && DistinctKeys(left, key) && Interleaved(left, key)
  {
    FoldsApartExactly(left, key);
  }

  lemma OneByte(a: char, b: char)
    ensures AtMost([a], [b]) <==> a <= b
    ensures Fold([a]) == [FoldChar(a)]
  {
    assert [a][1..] == "" && [b][1..] == "";
    assert Less([b], [a]) <==> b < a;
  }

  /** Neighbours are all that is compared: keys that differ only in case pass when another sorts between them. */
  lemma NeighbourScanMissesFoldedPair()
    ensures Fold("A") == Fold("a")
    ensures SemanticallyEqual(["A", "B", "a"], ["A", "B", "a"], Self)
  {
    OneByte('A', 'B');
    OneByte('B', 'a');
    OneByte('A', 'a');
    OneByte('a', 'a');
    var list := ["A", "B", "a"];
    assert Self(list[0]) == ['A'] && Self(list[1]) == ['B'] && Self(list[2]) == ['a'];
    assert IsSortOf(list, list, Self) && NeighboursApart(list, Self);
  }

  /** Sorts copies of both lists; no two neighbours on the left may coincide regardless of case, and both must agree. */
  method SemanticEqual<T(!new, ==)>(left: seq<T>, right: seq<T>, key: T -> string) returns (ok: bool)
    ensures ok <==> SemanticallyEqual(left, right, key)
  {
    if |left| != |right| {
      assert |multiset(left)| != |multiset(right)|;
      return false;
    }
    var l := Sort(left, key);
    var r := Sort(right, key);
    ApartWhereverSorted(l, left, key);
    for i := 0 to |l|
      invariant forall j | 1 <= j < i :: Fold(key(l[j - 1])) != Fold(key(l[j]))
    {
      if i > 0 && Fold(key(l[i - 1])) == Fold(key(l[i])) {
        return false;
      }
    }
    ApartIsStrict(l, key);
    if multiset(left) == multiset(right) {
      DistinctKeysPermute(l, left, key);
      SortUnique(l, r, left, right, key);
    }
    return l == r;
  }

  /** It does not matter which sorted arrangement is looked at. */
  lemma ApartWhereverSorted<T(!new)>(sorted: seq<T>, items: seq<T>, key: T -> string)
    requires IsSortOf(sorted, items, key)
    ensures FoldsApart(items, key) <==> NeighboursApart(sorted, key)
  {
    if FoldsApart(items, key) {
      var other :| IsSortOf(other, items, key) && NeighboursApart(other, key);
      ApartIsStrict(other, key);
      DistinctKeysPermute(other, items, key);
      SortUnique(other, sorted, items, items, key);
    }
  }

  // ---------------------------------------------------------------- templates

  ghost predicate OneVersionPerId(items: seq<Dependency>) {
    forall a, b | a in items && b in items && a.id == b.id :: a == b
  }

  /** The distinct templates, provided no id occurs with two versions or checksums. */
  method UniqueTemplates(items: seq<Dependency>) returns (r: Option<seq<Dependency>>)
    ensures r.Some? <==> OneVersionPerId(items)
    ensures r.Some? ==> DistinctKeys(r.value, DependencyId) && forall t :: t in r.value <==> t in items
  {
    var byId: map<string, Dependency> := map[];
    for i := 0 to |items|
      invariant OneVersionPerId(items[..i])
      invariant forall t: Dependency :: (t.id in byId && byId[t.id] == t) <==> t in items[..i]
      invariant forall id | id in byId :: byId[id].id == id
    {
      var item := items[i];
      assert items[..i + 1] == items[..i] + [item];
      if item.id in byId && byId[item.id] != item {
        assert byId[item.id] in items && item in items;
        return None;
      }
      byId := byId[item.id := item];
    }
    assert items[..|items|] == items;
    var list := ListedValues(byId);
    return Some(list);
  }

  /** The values in whatever order the map yields them. */
  method ListedValues(byId: map<string, Dependency>) returns (list: seq<Dependency>)
    requires forall id | id in byId :: byId[id].id == id
    ensures DistinctKeys(list, DependencyId)
    ensures forall t: Dependency :: t in list <==> t.id in byId && byId[t.id] == t
  {
    list := [];
    var pending := byId.Keys;
    while pending != {}
      invariant pending <= byId.Keys && DistinctKeys(list, DependencyId)
      invariant forall t: Dependency :: t in list <==> t.id in byId && t.id !in pending && byId[t.id] == t
      decreases pending
    {
      var id :| id in pending;
      forall j | 0 <= j < |list|
        ensures DependencyId(list[j]) != id
      {
        assert list[j] in list;
      }
      list := list + [byId[id]];
      pending := pending - {id};
    }
  }

  // ---------------------------------------------------------------- output closure

  function ManifestPaths(outputs: seq<ManifestOutput>): (r: seq<Path>)
    ensures |r| == |outputs| && forall i | 0 <= i < |outputs| :: r[i] == outputs[i].spec.path
  {
    seq(|outputs|, i requires 0 <= i < |outputs| => outputs[i].spec.path)
  }

  function LockPaths(files: seq<LockedFile>): (r: seq<Path>)
    ensures |r| == |files| && forall i | 0 <= i < |files| :: r[i] == files[i].path
  {
    seq(|files|, i requires 0 <= i < |files| => files[i].path)
  }

  /** The lock entry pins the same source as the output. */
  predicate LockSourceEqual(o: OutputSpec, f: LockedFile) {
    o.sourceId == f.sourceId && o.sourceVersion == f.sourceVersion && o.sourcePath == f.sourcePath && o.sourceSha == f.sourceSha &&
    o.renderStrategy == f.renderStrategy && o.contentType == f.contentType && o.merge == f.merge
  }

  /** The lock entry is this manifest output's file, with the update policy its owner demands. */
  predicate LockMatches(m: ManifestOutput, f: LockedFile) {
    m.spec.path == f.path && m.spec.ownership == f.ownership && m.sha == f.sha && LockSourceEqual(m.spec, f) &&
    (f.ownership == Generated ==> f.updatePolicy == "replace_generated" && f.generatedSha == f.sha) &&
    (f.ownership == Integration ==> f.updatePolicy == "merge_integration" && f.merge.Some? && f.generatedSha != NoDigest)
  }

  /** The managed entries of a lock, in order. */
  function ManagedFiles(files: seq<LockedFile>): (r: seq<LockedFile>)
    ensures forall f :: f in r <==> f in files && Managed(f.ownership)
  {
    if files == [] then []
    else
      var n := |files| - 1;
      var rest := ManagedFiles(files[..n]);
      assert files == files[..n] + [files[n]];
      if Managed(files[n].ownership) then rest + [files[n]] else rest
  }

  ghost predicate ManifestPlanned(planned: seq<OutputSpec>, manifest: seq<ManifestOutput>) {
    forall m | m in manifest :: m.spec in planned
  }

  ghost predicate FilesInManifest(manifest: seq<ManifestOutput>, files: seq<LockedFile>) {
    forall f | f in files && Managed(f.ownership) :: exists m :: m in manifest && LockMatches(m, f)
  }

  /** The verdict of the closure check. */
  ghost predicate OutputClosure(planned: seq<OutputSpec>, manifest: seq<ManifestOutput>, files: seq<LockedFile>) {
    ScanAccepts(PathsOf(planned)) && ScanAccepts(ManifestPaths(manifest)) && ScanAccepts(LockPaths(files)) &&
    |planned| == |manifest| && ManifestPlanned(planned, manifest) && FilesInManifest(manifest, files) &&
    |ManagedFiles(files)| == |manifest|
  }

  lemma DistinctManifestPaths(outputs: seq<ManifestOutput>)
    requires ScanAccepts(ManifestPaths(outputs))
    ensures DistinctKeys(outputs, ManifestPath)
  {
    if !DistinctKeys(ManifestPaths(outputs), Self) {
      ScanRejectsEqualPaths(ManifestPaths(outputs));
    }
    forall i, j | 0 <= i < j < |outputs|
      ensures ManifestPath(outputs[i]) != ManifestPath(outputs[j])
    {
      assert Self(ManifestPaths(outputs)[i]) != Self(ManifestPaths(outputs)[j]);
    }
  }

  lemma DistinctLockPaths(files: seq<LockedFile>)
    requires ScanAccepts(LockPaths(files))
    ensures DistinctKeys(files, LockedPath)
  {
    if !DistinctKeys(LockPaths(files), Self) {
      ScanRejectsEqualPaths(LockPaths(files));
    }
    forall i, j | 0 <= i < j < |files|
      ensures LockedPath(files[i]) != LockedPath(files[j])
    {
      assert Self(LockPaths(files)[i]) != Self(LockPaths(files)[j]);
    }
  }

  method PlannedByPath(planned: seq<OutputSpec>) returns (byPath: map<Path, OutputSpec>)
    requires DistinctKeys(planned, OutputPath)
    ensures forall o: OutputSpec :: (o.path in byPath && byPath[o.path] == o) <==> o in planned
    ensures forall p | p in byPath :: byPath[p].path == p
  {
    byPath := map[];
    for i := 0 to |planned|
      invariant forall o: OutputSpec :: (o.path in byPath && byPath[o.path] == o) <==> o in planned[..i]
      invariant forall p | p in byPath :: byPath[p].path == p
    {
      assert planned[..i + 1] == planned[..i] + [planned[i]];
      NotInPrefix(planned, i, OutputPath);
      assert forall o | o in planned[..i] :: OutputPath(o) == o.path;
      byPath := byPath[planned[i].path := planned[i]];
    }
    assert planned[..|planned|] == planned;
  }

  /** Indexes the manifest by path, refusing an output the plan does not contain. */
  method ManifestByPath(planned: seq<OutputSpec>, manifest: seq<ManifestOutput>) returns (r: Option<map<Path, ManifestOutput>>)
    requires DistinctKeys(planned, OutputPath) && DistinctKeys(manifest, ManifestPath)
    ensures r.Some? <==> ManifestPlanned(planned, manifest)
    ensures r.Some? ==> (forall m: ManifestOutput :: (m.spec.path in r.value && r.value[m.spec.path] == m) <==> m in manifest) &&
                        forall p | p in r.value :: r.value[p].spec.path == p
  {
    var plannedByPath := PlannedByPath(planned);
    var byPath: map<Path, ManifestOutput> := map[];
    for i := 0 to |manifest|
      invariant ManifestPlanned(planned, manifest[..i])
      invariant forall m: ManifestOutput :: (m.spec.path in byPath && byPath[m.spec.path] == m) <==> m in manifest[..i]
      invariant forall p | p in byPath :: byPath[p].spec.path == p
    {
      var output := manifest[i];
      assert manifest[..i + 1] == manifest[..i] + [output];
      if output.spec.path !in plannedByPath || plannedByPath[output.spec.path] != output.spec {
        assert output in manifest && output.spec !in planned;
        return None;
      }
      NotInPrefix(manifest, i, ManifestPath);
      assert forall m | m in manifest[..i] :: ManifestPath(m) == m.spec.path;
      byPath := byPath[output.spec.path := output];
    }
    assert manifest[..|manifest|] == manifest;
    return Some(byPath);
  }

  /** The checks on one managed lock entry. */
  method MatchesOutput(output: ManifestOutput, file: LockedFile) returns (ok: bool)
    requires Managed(file.ownership)
    ensures ok <==> LockMatches(output, file)
  {
    if output.spec.path != file.path || output.spec.ownership != file.ownership || output.sha != file.sha {
      return false;
    }
    if output.spec.sourceId != file.sourceId || output.spec.sourceVersion != file.sourceVersion ||
       output.spec.sourcePath != file.sourcePath || output.spec.sourceSha != file.sourceSha ||
       output.spec.renderStrategy != file.renderStrategy || output.spec.contentType != file.contentType || output.spec.merge != file.merge {
      return false;
    }
    if file.ownership == Generated && (file.updatePolicy != "replace_generated" || file.generatedSha != file.sha) {
      return false;
    }
    if file.ownership == Integration && (file.updatePolicy != "merge_integration" || file.merge.None? || file.generatedSha == NoDigest) {
      return false;
    }
    return true;
  }

  /** Counts the managed lock entries, each of which must be a manifest output's file. */
  method CountManaged(manifest: seq<ManifestOutput>, byPath: map<Path, ManifestOutput>, files: seq<LockedFile>) returns (count: Option<nat>)
    requires forall m: ManifestOutput :: (m.spec.path in byPath && byPath[m.spec.path] == m) <==> m in manifest
    requires forall p | p in byPath :: byPath[p].spec.path == p
    ensures count.Some? <==> FilesInManifest(manifest, files)
    ensures count.Some? ==> count.value == |ManagedFiles(files)|
  {
    var n: nat := 0;
    for i := 0 to |files|
      invariant FilesInManifest(manifest, files[..i]) && n == |ManagedFiles(files[..i])|
    {
      var file := files[i];
      assert files[..i + 1] == files[..i] + [file] && files[..i + 1][..i] == files[..i];
      if Managed(file.ownership) {
        var matches := false;
        if file.path in byPath {
          matches := MatchesOutput(byPath[file.path], file);
        }
        if !matches {
          assert file in files;
          assert forall m | m in manifest :: !LockMatches(m, file);
          return None;
        }
        assert byPath[file.path] in manifest;
        n := n + 1;
      }
    }
    assert files[..|files|] == files;
    return Some(n);
  }

  method ValidateOutputClosure(planned: seq<OutputSpec>, manifest: seq<ManifestOutput>, files: seq<LockedFile>) returns (ok: bool)
    ensures ok <==> OutputClosure(planned, manifest, files)
  {
    ok := NonOverlapping(PathsOf(planned));
    if !ok {
      return;
    }
    ok := NonOverlapping(ManifestPaths(manifest));
    if !ok {
      return;
    }
    ok := NonOverlapping(LockPaths(files));
    if !ok || |planned| != |manifest| {
      return false;
    }
    DistinctPaths(planned);
    DistinctManifestPaths(manifest);
    var byPath := ManifestByPath(planned, manifest);
    if byPath.None? {
      return false;
    }
    var managed := CountManaged(manifest, byPath.value, files);
    return managed.Some? && managed.value == |manifest|;
  }

  // ---------------------------------------------------------------- the closure is a bijection

  lemma {:induction false} ManagedDistinct(files: seq<LockedFile>)
    requires DistinctKeys(files, LockedPath)
    ensures DistinctKeys(ManagedFiles(files), LockedPath)
  {
    if files != [] {
      var n := |files| - 1;
      DistinctPrefix(files, n, LockedPath);
      NotInPrefix(files, n, LockedPath);
      ManagedDistinct(files[..n]);
      assert forall i | 0 <= i < |ManagedFiles(files[..n])| :: ManagedFiles(files[..n])[i] in files[..n];
    }
  }

  /** One planned output, one manifest output and one managed lock entry, alike in everything they share, with the owner's policy. */
  ghost predicate OneOutput(o: OutputSpec, m: ManifestOutput, f: LockedFile) {
    m.spec == o && f.path == o.path && f.ownership == o.ownership && f.sha == m.sha &&
    f.sourceId == o.sourceId && f.sourceVersion == o.sourceVersion && f.sourcePath == o.sourcePath && f.sourceSha == o.sourceSha &&
    f.renderStrategy == o.renderStrategy && f.contentType == o.contentType && f.merge == o.merge &&
    ((f.ownership == Generated && f.updatePolicy == "replace_generated" && f.generatedSha == m.sha) ||
     (f.ownership == Integration && f.updatePolicy == "merge_integration" && o.merge.Some? && f.generatedSha != NoDigest))
  }

  ghost predicate Triple(planned: seq<OutputSpec>, manifest: seq<ManifestOutput>, files: seq<LockedFile>, o: OutputSpec,
                         m: ManifestOutput, f: LockedFile) {
    o in planned && m in manifest && f in files && OneOutput(o, m, f)
  }

  /** The three lists have the same paths. */
  lemma ClosurePaths(planned: seq<OutputSpec>, manifest: seq<ManifestOutput>, files: seq<LockedFile>)
    requires OutputClosure(planned, manifest, files)
    ensures DistinctKeys(planned, OutputPath) && DistinctKeys(manifest, ManifestPath) && DistinctKeys(files, LockedPath)
    ensures KeySet(manifest, ManifestPath) == KeySet(planned, OutputPath)
    ensures KeySet(ManagedFiles(files), LockedPath) == KeySet(manifest, ManifestPath)
  {
    var managed := ManagedFiles(files);
    DistinctPaths(planned);
    DistinctManifestPaths(manifest);
    DistinctLockPaths(files);
    ManagedDistinct(files);
    forall m | m in manifest
      ensures ManifestPath(m) in KeySet(planned, OutputPath)
    {
      assert OutputPath(m.spec) == ManifestPath(m);
    }
    SameKeys(manifest, planned, ManifestPath, OutputPath);
    forall f | f in managed
      ensures LockedPath(f) in KeySet(manifest, ManifestPath)
    {
      var m :| m in manifest && LockMatches(m, f);
      assert ManifestPath(m) == LockedPath(f);
    }
    SameKeys(managed, manifest, LockedPath, ManifestPath);
  }

  /** No output and no file belongs to two triples. */
  lemma TriplesApart(planned: seq<OutputSpec>, manifest: seq<ManifestOutput>, files: seq<LockedFile>)
    requires DistinctKeys(planned, OutputPath) && DistinctKeys(manifest, ManifestPath) && DistinctKeys(files, LockedPath)
    ensures forall o, m, f, o', m', f' | Triple(planned, manifest, files, o, m, f) && Triple(planned, manifest, files, o', m', f') &&
              (o == o' || m == m' || f == f') :: o == o' && m == m' && f == f'
  {
    forall o, m, f, o', m', f' | Triple(planned, manifest, files, o, m, f) && Triple(planned, manifest, files, o', m', f') &&
                                 (o == o' || m == m' || f == f')
      ensures o == o' && m == m' && f == f'
    {
      OneAtPath(planned, OutputPath, o, o');
      OneAtPath(manifest, ManifestPath, m, m');
      OneAtPath(files, LockedPath, f, f');
    }
  }

  /**
   An accepted closure is a three-way bijection: every planned output, every manifest output and every generated or
   integration entry of the lock belongs to exactly one triple that is alike in every field.
   */
  lemma ClosureIsBijection(planned: seq<OutputSpec>, manifest: seq<ManifestOutput>, files: seq<LockedFile>)
    requires OutputClosure(planned, manifest, files)
    ensures forall o | o in planned :: exists m, f :: Triple(planned, manifest, files, o, m, f)
    ensures forall m | m in manifest :: exists o, f :: Triple(planned, manifest, files, o, m, f)
    ensures forall f | f in files && (f.ownership == Generated || f.ownership == Integration) :: exists o, m :: Triple(planned, manifest, files, o, m, f)
    ensures forall o, m, f, o', m', f' | Triple(planned, manifest, files, o, m, f) && Triple(planned, manifest, files, o', m', f') &&
              (o == o' || m == m' || f == f') :: o == o' && m == m' && f == f'
  {
    ClosurePaths(planned, manifest, files);
    TriplesApart(planned, manifest, files);
    forall m | m in manifest
      ensures exists f :: Triple(planned, manifest, files, m.spec, m, f)
    {
      FileOfOutput(planned, manifest, files, m);
    }
    forall o | o in planned
      ensures exists m, f :: Triple(planned, manifest, files, o, m, f)
    {
      assert OutputPath(o) in KeySet(manifest, ManifestPath);
      var m :| m in manifest && ManifestPath(m) == OutputPath(o);
      OneAtPath(planned, OutputPath, m.spec, o);
      FileOfOutput(planned, manifest, files, m);
    }
    forall f | f in files && (f.ownership == Generated || f.ownership == Integration)
      ensures exists o, m :: Triple(planned, manifest, files, o, m, f)
    {
      var m :| m in manifest && LockMatches(m, f);
      assert Triple(planned, manifest, files, m.spec, m, f);
    }
  }

  lemma FileOfOutput(planned: seq<OutputSpec>, manifest: seq<ManifestOutput>, files: seq<LockedFile>, m: ManifestOutput)
    requires OutputClosure(planned, manifest, files) && DistinctKeys(manifest, ManifestPath) && m in manifest
    requires KeySet(ManagedFiles(files), LockedPath) == KeySet(manifest, ManifestPath)
    ensures exists f :: Triple(planned, manifest, files, m.spec, m, f)
  {
    assert ManifestPath(m) in KeySet(manifest, ManifestPath);
    var f :| f in ManagedFiles(files) && LockedPath(f) == ManifestPath(m);
    var n :| n in manifest && LockMatches(n, f);
    OneAtPath(manifest, ManifestPath, m, n);
    assert Triple(planned, manifest, files, m.spec, m, f);
  }

  /** The converse: lists with paths that pass the scan and such triples for all their members are accepted. */
  lemma BijectionCloses(planned: seq<OutputSpec>, manifest: seq<ManifestOutput>, files: seq<LockedFile>)
    requires ScanAccepts(PathsOf(planned)) && ScanAccepts(ManifestPaths(manifest)) && ScanAccepts(LockPaths(files))
    requires forall o | o in planned :: exists m, f :: Triple(planned, manifest, files, o, m, f)
    requires forall m | m in manifest :: exists o, f :: Triple(planned, manifest, files, o, m, f)
    requires forall f | f in files && (f.ownership == Generated || f.ownership == Integration) ::
               exists o, m :: Triple(planned, manifest, files, o, m, f)
    ensures OutputClosure(planned, manifest, files)
  {
    var managed := ManagedFiles(files);
    DistinctPaths(planned);
    DistinctManifestPaths(manifest);
    DistinctLockPaths(files);
    ManagedDistinct(files);
    TripleKeys(planned, manifest, files);
    KeyCount(planned, OutputPath);
    KeyCount(manifest, ManifestPath);
    KeyCount(managed, LockedPath);
    TripleMembers(planned, manifest, files);
  }

  lemma TripleMembers(planned: seq<OutputSpec>, manifest: seq<ManifestOutput>, files: seq<LockedFile>)
    requires forall m | m in manifest :: exists o, f :: Triple(planned, manifest, files, o, m, f)
    requires forall f | f in files && (f.ownership == Generated || f.ownership == Integration) ::
               exists o, m :: Triple(planned, manifest, files, o, m, f)
    ensures ManifestPlanned(planned, manifest) && FilesInManifest(manifest, files)
  {
    forall m | m in manifest
      ensures m.spec in planned
    {
      var o, f :| Triple(planned, manifest, files, o, m, f);
    }
    forall f | f in files && Managed(f.ownership)
      ensures exists m :: m in manifest && LockMatches(m, f)
    {
      var o, m :| Triple(planned, manifest, files, o, m, f);
    }
  }

  lemma TripleKeys(planned: seq<OutputSpec>, manifest: seq<ManifestOutput>, files: seq<LockedFile>)
    requires forall o | o in planned :: exists m, f :: Triple(planned, manifest, files, o, m, f)
    requires forall m | m in manifest :: exists o, f :: Triple(planned, manifest, files, o, m, f)
    requires forall f | f in files && (f.ownership == Generated || f.ownership == Integration) ::
               exists o, m :: Triple(planned, manifest, files, o, m, f)
    ensures KeySet(planned, OutputPath) == KeySet(manifest, ManifestPath) == KeySet(ManagedFiles(files), LockedPath)
  {
    forall o | o in planned
      ensures OutputPath(o) in KeySet(manifest, ManifestPath)
    {
      var m, f :| Triple(planned, manifest, files, o, m, f);
      assert ManifestPath(m) == OutputPath(o);
    }
    forall m | m in manifest
      ensures ManifestPath(m) in KeySet(planned, OutputPath) && ManifestPath(m) in KeySet(ManagedFiles(files), LockedPath)
    {
      var o, f :| Triple(planned, manifest, files, o, m, f);
      assert ManifestPath(m) == OutputPath(o) == LockedPath(f) && f in ManagedFiles(files);
    }
    forall f | f in ManagedFiles(files)
      ensures LockedPath(f) in KeySet(manifest, ManifestPath)
    {
      var o, m :| Triple(planned, manifest, files, o, m, f);
      assert ManifestPath(m) == LockedPath(f);
    }
  }

  lemma OneAtPath<T(!new)>(items: seq<T>, key: T -> string, a: T, b: T)
    requires DistinctKeys(items, key) && a in items && b in items
    ensures key(a) == key(b) ==> a == b
  {
    var i :| 0 <= i < |items| && items[i] == a;
    var j :| 0 <= j < |items| && items[j] == b;
    assert i < j ==> key(items[i]) != key(items[j]);
    assert j < i ==> key(items[j]) != key(items[i]);
  }

  // ---------------------------------------------------------------- completing a run

  /** What the database holds about the plan, the blueprint and the run. */
  datatype PlanRecord = PlanRecord(blueprintId: string, blueprintRevision: int, catalogChecksum: string, blueprintChecksum: string)

  datatype RunRecord = RunRecord(runId: string, productId: string, createdAt: int)

  datatype Identity = Identity(assemblyId: string, lockId: string, manifestCreatedAt: int, lockCreatedAt: int)

  function Templates(plan: Plan): (r: seq<Dependency>)
    ensures |r| == |plan.applications| && forall i | 0 <= i < |r| :: r[i] == plan.applications[i].template
  {
    seq(|plan.applications|, i requires 0 <= i < |plan.applications| => plan.applications[i].template)
  }

  /** The documents name this plan, blueprint, catalog and run, and were made after the run began. */
  predicate IdentitiesAgree(record: PlanRecord, blueprintChecksum: string, run: RunRecord, plan: Plan, m: Manifest, l: Lock) {
    plan.blueprintId == record.blueprintId && plan.blueprintVersion == record.blueprintRevision &&
    plan.catalogChecksum == record.catalogChecksum && blueprintChecksum == record.blueprintChecksum &&
    m.assemblyId != "" && l.lockId != "" && m.runId == run.runId && m.product.productId == run.productId &&
    m.blueprint.blueprintId == record.blueprintId && m.blueprint.version == record.blueprintRevision &&
    m.blueprint.checksum == blueprintChecksum && m.catalogChecksum == record.catalogChecksum &&
    l.manifestChecksum == ChecksumOfManifest(m) && l.blueprintChecksum == blueprintChecksum &&
    l.catalogChecksum == record.catalogChecksum && run.createdAt <= m.createdAt && run.createdAt <= l.createdAt
  }

  predicate AllNamed(ids: seq<string>) {
    ids != [] && "" !in ids && DistinctStrings(ids)
  }

  method UniqueStrings(values: seq<string>) returns (ok: bool)
    ensures ok <==> AllNamed(values)
  {
    var seen: set<string> := {};
    for i := 0 to |values|
      invariant "" !in values[..i] && DistinctStrings(values[..i])
      invariant forall v :: v in seen <==> v in values[..i]
    {
      assert values[..i + 1] == values[..i] + [values[i]];
      if values[i] == "" {
        return false;
      }
      if values[i] in seen {
        var k :| 0 <= k < i && values[..i][k] == values[i];
        assert values[k] == values[i];
        return false;
      }
      seen := seen + {values[i]};
    }
    assert values[..|values|] == values;
    return |values| != 0;
  }

  /** The verdict of the completion check. */
  ghost predicate Completes(record: PlanRecord, blueprintChecksum: string, run: RunRecord, plan: Plan, m: Manifest, l: Lock) {
    IdentitiesAgree(record, blueprintChecksum, run, plan, m, l) && OneVersionPerId(Templates(plan)) &&
    SemanticallyEqual(PlanApplicationIds(plan), ContextApplicationIds(m.product), Self) && AllNamed(RuntimeApplicationIds(m.product)) &&
    SemanticallyEqual(plan.packages, m.packages, DependencyId) && TemplatesAgree(plan, m.templates) &&
    SemanticallyEqual(plan.sdks, m.sdks, DependencyId) && SemanticallyEqual(plan.secretRefs, m.secretRefs, SecretKey) &&
    plan.generator == l.generator &&
    SemanticallyEqual(plan.packages, l.packages, DependencyId) && TemplatesAgree(plan, l.templates) &&
    SemanticallyEqual(plan.sdks, l.sdks, DependencyId) &&
    OutputClosure(plan.expectedOutputs, m.outputs, l.files)
  }

  /** The list names each of the plan's templates once, and ids of neighbours differ regardless of case. */
  ghost predicate TemplatesAgree(plan: Plan, list: seq<Dependency>) {
    DistinctKeys(list, DependencyId) && (forall t :: t in list <==> t in Templates(plan)) && FoldsApart(list, DependencyId)
  }

  lemma {:induction false} SameMembersPermute(a: seq<Dependency>, b: seq<Dependency>)
    requires DistinctKeys(a, DependencyId) && DistinctKeys(b, DependencyId) && forall t :: t in a <==> t in b
    ensures multiset(a) == multiset(b)
  {
    forall t
      ensures multiset(a)[t] == multiset(b)[t]
    {
      assert t in a <==> t in multiset(a);
      assert t in b <==> t in multiset(b);
      if t in a {
        var i :| 0 <= i < |a| && a[i] == t;
        var j :| 0 <= j < |b| && b[j] == t;
        OccursOnce(a, i, DependencyId);
        OccursOnce(b, j, DependencyId);
      }
    }
  }

  /** The templates compare equal exactly if the list names each of them once. */
  lemma TemplateVerdict(plan: Plan, templates: seq<Dependency>, list: seq<Dependency>)
    requires DistinctKeys(templates, DependencyId) && forall t :: t in templates <==> t in Templates(plan)
    ensures SemanticallyEqual(templates, list, DependencyId) <==> TemplatesAgree(plan, list)
  {
    if SemanticallyEqual(templates, list, DependencyId) {
      AcceptedAreDistinct(templates, list, DependencyId);
      forall t
        ensures t in list <==> t in templates
      {
        assert t in list <==> t in multiset(list);
        assert t in templates <==> t in multiset(templates);
      }
      ApartPermuted(templates, list, DependencyId);
    }
    if TemplatesAgree(plan, list) {
      SameMembersPermute(templates, list);
      ApartPermuted(list, templates, DependencyId);
    }
  }

  method ValidateCompletedArtifacts(record: PlanRecord, blueprintChecksum: string, run: RunRecord, plan: Plan, m: Manifest, l: Lock)
    returns (r: Option<Identity>)
    ensures r.Some? <==> Completes(record, blueprintChecksum, run, plan, m, l)
    ensures r.Some? ==> r.value == Identity(m.assemblyId, l.lockId, m.createdAt, l.createdAt)
  {
    if plan.blueprintId != record.blueprintId || plan.blueprintVersion != record.blueprintRevision ||
       plan.catalogChecksum != record.catalogChecksum || blueprintChecksum != record.blueprintChecksum ||
       m.assemblyId == "" || l.lockId == "" || m.runId != run.runId || m.product.productId != run.productId ||
       m.blueprint.blueprintId != record.blueprintId || m.blueprint.version != record.blueprintRevision ||
       m.blueprint.checksum != blueprintChecksum || m.catalogChecksum != record.catalogChecksum ||
       l.manifestChecksum != ChecksumOfManifest(m) || l.blueprintChecksum != blueprintChecksum ||
       l.catalogChecksum != record.catalogChecksum || m.createdAt < run.createdAt || l.createdAt < run.createdAt {
      return None;
    }
    var templates := UniqueTemplates(Templates(plan));
    if templates.None? {
      return None;
    }
    TemplateVerdict(plan, templates.value, m.templates);
    TemplateVerdict(plan, templates.value, l.templates);
    var applications := SemanticEqual(PlanApplicationIds(plan), ContextApplicationIds(m.product), Self);
    var packages := SemanticEqual(plan.packages, m.packages, DependencyId);
    var manifestTemplates := SemanticEqual(templates.value, m.templates, DependencyId);
    var sdks := SemanticEqual(plan.sdks, m.sdks, DependencyId);
    var secrets := SemanticEqual(plan.secretRefs, m.secretRefs, SecretKey);
    var lockPackages := SemanticEqual(plan.packages, l.packages, DependencyId);
    var lockTemplates := SemanticEqual(templates.value, l.templates, DependencyId);
    var lockSdks := SemanticEqual(plan.sdks, l.sdks, DependencyId);
    var closed := ValidateOutputClosure(plan.expectedOutputs, m.outputs, l.files);
    var named := UniqueStrings(RuntimeApplicationIds(m.product));
    if !applications || !named || !packages || !manifestTemplates || !sdks || !secrets ||
       plan.generator != l.generator || !lockPackages || !lockTemplates || !lockSdks || !closed {
      return None;
    }
    return Some(Identity(m.assemblyId, l.lockId, m.createdAt, l.createdAt));
  }
}
