/**
 The artifact store as one request sees it: a private staging directory and, once published, the final
 directory. Publishing renames the one to the other. Staged and published documents are addressed by
 their role, as the request builder lays them out.
 */
module ArtifactStore {
  import opened Digests
  import opened Ordering
  import opened Paths
  import opened Model
  import opened Inspect
  import opened Artifacts

  datatype Name =
    | ManifestName | LockName | RollbackName | JournalName | ResultName
    | JournalNext | ResultNext
    | BackupName(path: Path) | EvidenceName(path: Path) | DiagnosticName(index: nat)

  datatype Document =
    | ManifestDocument(manifest: Manifest) | LockDocument(lock: Lock) | RollbackDocument(rollback: RollbackPoint)
    | JournalDocument(journal: Journal) | ResultDocument(result: GeneratorResult)
    | DiagnosticDocument(diagnostic: Diagnostic) | Blob(bytes: Bytes)

  type Directory = map<Name, Document>

  /** Which documents a bundle consists of. */
  predicate InBundle(b: Bundle, n: Name) {
    match n
    case ManifestName | LockName | RollbackName | JournalName | ResultName => true
    case BackupName(p) => p in b.backups
    case EvidenceName(p) => p in b.evidence
    case _ => false
  }

  function DocumentFor(b: Bundle, n: Name): Document
    requires InBundle(b, n)
  {
    match n
    case ManifestName => ManifestDocument(b.manifest)
    case LockName => LockDocument(b.lock)
    case RollbackName => RollbackDocument(b.rollback)
    case JournalName => JournalDocument(b.journal)
    case ResultName => ResultDocument(b.result)
    case BackupName(p) => Blob(b.backups[p])
    case EvidenceName(p) => Blob(b.evidence[p])
  }

  ghost predicate IsBundleDirectory(d: Directory, b: Bundle) {
    (forall n :: n in d <==> InBundle(b, n)) && forall n | n in d :: d[n] == DocumentFor(b, n)
  }

  method BundleDirectory(b: Bundle) returns (d: Directory)
    ensures IsBundleDirectory(d, b)
  {
    var names := {ManifestName, LockName, RollbackName, JournalName, ResultName} +
                 (set p | p in b.backups :: BackupName(p)) + (set p | p in b.evidence :: EvidenceName(p));
    assert forall n :: n in names <==> InBundle(b, n);
    d := map n | n in names :: DocumentFor(b, n);
  }

  function InState(j: Journal, state: JournalState, attempted: bool, completed: bool): Journal {
    j.(state := state, rollbackAttempted := attempted, rollbackCompleted := completed)
  }

  function StateOf(d: Directory): Option<JournalState> {
    if JournalName in d && d[JournalName].JournalDocument? then Some(d[JournalName].journal.state) else None
  }

  function JournalIn(d: Directory): Option<Journal> {
    if JournalName in d && d[JournalName].JournalDocument? then Some(d[JournalName].journal) else None
  }

  function LogOf(d: Directory): Option<seq<JournalFile>> {
    if JournalName in d && d[JournalName].JournalDocument? then Some(d[JournalName].journal.changes) else None
  }

  datatype Loaded = NotFound | Found(bundle: Bundle) | LoadFailed(error: Error)

  /** The published documents read back as this bundle. */
  ghost predicate ReadsBack(d: Directory, b: Bundle) {
    ManifestName in d && d[ManifestName] == ManifestDocument(b.manifest) &&
    LockName in d && d[LockName] == LockDocument(b.lock) &&
    RollbackName in d && d[RollbackName] == RollbackDocument(b.rollback) &&
    JournalName in d && d[JournalName] == JournalDocument(b.journal) &&
    ResultName in d && d[ResultName] == ResultDocument(b.result) &&
    b.journal.state == StateCommitted && b.result.status == Succeeded &&
    b.finalSnapshot.checksum == b.lock.targetSnapshotChecksum &&
    IsSortOf(b.finalSnapshot.files, EntriesOf(b.lock.files), FilePath) && b.backups == map[] &&
    EvidenceRead(d, b.manifest.evidence, b.evidence)
  }

  /** Every listed evidence document was read from the directory and has its digest. */
  ghost predicate EvidenceRead(d: Directory, evidence: seq<Evidence>, documents: map<Path, Bytes>) {
    forall e | e in evidence ::
      e.path in documents && Sha256(documents[e.path]) == e.sha && EvidenceName(e.path) in d &&
      d[EvidenceName(e.path)] == Blob(documents[e.path])
  }

  /** What loading a published generation needs besides working operations. */
  ghost predicate Loadable(d: Directory) {
    ManifestName in d && d[ManifestName].ManifestDocument? && LockName in d && d[LockName].LockDocument? &&
    RollbackName in d && d[RollbackName].RollbackDocument? && JournalName in d && d[JournalName].JournalDocument? &&
    ResultName in d && d[ResultName].ResultDocument? && d[JournalName].journal.state == StateCommitted &&
    d[ResultName].result.status == Succeeded && ValidLockFiles(d[LockName].lock.files) &&
    EvidenceReadable(d, d[ManifestName].manifest.evidence)
  }

  predicate EvidenceReadable(d: Directory, evidence: seq<Evidence>) {
    forall e | e in evidence :: EvidenceName(e.path) in d && d[EvidenceName(e.path)].Blob? && Sha256(d[EvidenceName(e.path)].bytes) == e.sha
  }

  function EntriesOf(files: seq<LockedFile>): (r: seq<ExistingFile>)
    ensures |r| == |files| && forall i | 0 <= i < |files| :: r[i] == ExistingFile(files[i].path, files[i].ownership, files[i].sha)
  {
    seq(|files|, i requires 0 <= i < |files| => ExistingFile(files[i].path, files[i].ownership, files[i].sha))
  }

  class Store {
    var stage: Option<Directory>
    var published: Option<Directory>
    ghost var faults: nat

    constructor ()
      ensures stage.None? && published.None? && faults == 0
    {
      stage, published, faults := None, None, 0;
    }

    /** A read or existence test that may fail. */
    method Access() returns (ok: bool)
      modifies this`faults
      ensures faults >= old(faults)
      ensures !ok ==> faults > old(faults)
    {
      if * {
        faults := faults + 1;
        return false;
      }
      return true;
    }

    method ReadPublished(name: Name) returns (r: Option<Document>)
      modifies this`faults
      ensures faults >= old(faults)
      ensures r.Some? ==> published.Some? && name in published.value && r.value == published.value[name]
      ensures r.None? && faults == old(faults) ==> published.None? || name !in published.value
    {
      var ok := Access();
      if !ok || published.None? || name !in published.value {
        return None;
      }
      return Some(published.value[name]);
    }

    /** Reads a committed, successful generation of this request, if one is published. */
    method LoadPublished() returns (r: Loaded)
      modifies this`faults
      ensures faults >= old(faults)
      ensures r.NotFound? ==> published.None?
      ensures r.Found? ==> published.Some? && ReadsBack(published.value, r.bundle)
      ensures r.LoadFailed? ==> r.error == ArtifactStoreFailed || r.error == ArtifactConflict
      ensures r.LoadFailed? && (published.None? || Loadable(published.value)) ==> faults > old(faults)
    {
      var ok := Access();
      if !ok {
        return LoadFailed(ArtifactStoreFailed);
      }
      if published.None? {
        return NotFound;
      }
      var manifest := ReadPublished(ManifestName);
      var lock := ReadPublished(LockName);
      var rollback := ReadPublished(RollbackName);
      var journal := ReadPublished(JournalName);
      var result := ReadPublished(ResultName);
      if manifest.None? || lock.None? || rollback.None? || journal.None? || result.None? {
        return LoadFailed(ArtifactConflict);
      }
      if !journal.value.JournalDocument? || !result.value.ResultDocument? || !lock.value.LockDocument? ||
         !manifest.value.ManifestDocument? || !rollback.value.RollbackDocument? ||
         journal.value.journal.state != StateCommitted || result.value.result.status != Succeeded {
        return LoadFailed(ArtifactConflict);
      }
      var index := LockedFilesByPath(lock.value.lock.files);
      if index.Err? {
        return LoadFailed(ArtifactConflict);
      }
      var evidence := ReadEvidence(manifest.value.manifest.evidence);
      if evidence.None? {
        return LoadFailed(ArtifactConflict);
      }
      var files := Sort(EntriesOf(lock.value.lock.files), FilePath);
      return Found(Bundle(manifest.value.manifest, lock.value.lock, rollback.value.rollback, journal.value.journal,
                          result.value.result, map[], evidence.value,
                          TargetSnapshot(files, lock.value.lock.targetSnapshotChecksum)));
    }

    /** Every evidence document the manifest lists, with its digest. */
    method ReadEvidence(evidence: seq<Evidence>) returns (r: Option<map<Path, Bytes>>)
      modifies this`faults
      ensures faults >= old(faults)
      ensures r.Some? && evidence != [] ==> published.Some? && EvidenceRead(published.value, evidence, r.value)
      ensures r.None? && published.Some? && EvidenceReadable(published.value, evidence) ==> faults > old(faults)
    {
      var documents: map<Path, Bytes> := map[];
      for i := 0 to |evidence|
        invariant faults >= old(faults)
        invariant i > 0 ==> published.Some? && EvidenceRead(published.value, evidence[..i], documents)
      {
        assert evidence[..i + 1] == evidence[..i] + [evidence[i]];
        assert evidence[i] in evidence;
        var content := ReadPublished(EvidenceName(evidence[i].path));
        if content.None? || !content.value.Blob? || Sha256(content.value.bytes) != evidence[i].sha {
          return None;
        }
        documents := documents[evidence[i].path := content.value.bytes];
      }
      assert evidence[..|evidence|] == evidence;
      return Some(documents);
    }

    function Docs(place: Place): Option<Directory>
      reads this`stage, this`published
    {
      if place == Staging then stage else published
    }

    method SetDocs(place: Place, d: Directory)
      modifies this`stage, this`published
      ensures Docs(place) == Some(d) && Docs(Other(place)) == old(Docs(Other(place)))
    {
      if place == Staging {
        stage := Some(d);
      } else {
        published := Some(d);
      }
    }

    /** Writes one new document; a failure may leave a partial one. */
    method WriteNew(place: Place, name: Name, document: Document) returns (ok: bool)
      modifies this
      ensures faults >= old(faults) && Docs(Other(place)) == old(Docs(Other(place)))
      ensures ok ==> old(Docs(place)).Some? && name !in old(Docs(place)).value && Docs(place) == Some(old(Docs(place)).value[name := document])
      ensures !ok ==> Docs(place) == old(Docs(place)) ||
                      (old(Docs(place)).Some? && name !in old(Docs(place)).value && Docs(place).Some? && name in Docs(place).value &&
                       Docs(place).value == old(Docs(place)).value[name := Docs(place).value[name]])
      ensures !ok && faults == old(faults) ==> Docs(place) == old(Docs(place)) && (Docs(place).None? || name in Docs(place).value)
    {
      if Docs(place).None? || name in Docs(place).value {
        return false;
      }
      if * {
        faults := faults + 1;
        return false;
      }
      if * {
        faults := faults + 1;
        var partial: Document :| true;
        SetDocs(place, Docs(place).value[name := partial]);
        return false;
      }
      SetDocs(place, Docs(place).value[name := document]);
      return true;
    }

    /** Removes a document; the callers ignore a failure. */
    method RemoveDocument(place: Place, name: Name)
      modifies this
      ensures faults >= old(faults) && Docs(Other(place)) == old(Docs(Other(place)))
      ensures Docs(place) == old(Docs(place)) || (old(Docs(place)).Some? && Docs(place) == Some(old(Docs(place)).value - {name}))
      ensures faults == old(faults) && Docs(place).Some? ==> name !in Docs(place).value
    {
      var ok := Access();
      if ok && Docs(place).Some? {
        SetDocs(place, Docs(place).value - {name});
      }
    }

    /** Atomically replaces a document by another. */
    method RenameDocument(place: Place, from: Name, to: Name) returns (ok: bool)
      modifies this
      ensures faults >= old(faults) && Docs(Other(place)) == old(Docs(Other(place)))
      ensures ok ==> old(Docs(place)).Some? && from in old(Docs(place)).value &&
                     Docs(place) == Some((old(Docs(place)).value - {from})[to := old(Docs(place)).value[from]])
      ensures !ok ==> Docs(place) == old(Docs(place))
      ensures !ok && faults == old(faults) ==> Docs(place).None? || from !in Docs(place).value
    {
      var done := Access();
      if !done || Docs(place).None? || from !in Docs(place).value {
        return false;
      }
      SetDocs(place, (Docs(place).value - {from})[to := Docs(place).value[from]]);
      return true;
    }

    /** Rewrites the state of a journal through a temporary file beside it. */
    method ReplaceJournalState(place: Place, state: JournalState, attempted: bool, completed: bool) returns (ok: bool)
      modifies this
      ensures faults >= old(faults) && Docs(Other(place)) == old(Docs(Other(place)))
      ensures old(Docs(place)).None? ==> Docs(place).None?
      ensures old(Docs(place)).Some? ==>
                Docs(place).Some? && JournalRewritten(old(Docs(place)).value, Docs(place).value, ok, state, attempted, completed)
      ensures !ok && faults == old(faults) ==>
                old(Docs(place)).None? || StateOf(old(Docs(place)).value).None? || JournalNext in old(Docs(place)).value
      ensures ok ==> old(Docs(place)).Some? && JournalNext !in old(Docs(place)).value
    {
      var readable := Access();
      if !readable || Docs(place).None? || StateOf(Docs(place).value).None? {
        return false;
      }
      var updated := JournalDocument(InState(Docs(place).value[JournalName].journal, state, attempted, completed));
      ok := WriteNew(place, JournalNext, updated);
      if ok {
        ok := RenameDocument(place, JournalNext, JournalName);
        if !ok {
          RemoveDocument(place, JournalNext);
        }
      }
    }

    method ReadBackup(place: Place, path: Path) returns (r: Option<Bytes>)
      modifies this`faults
      ensures faults >= old(faults)
      ensures Docs(place) == old(Docs(place))
      ensures r.Some? ==> HasBackup(Docs(place), path, r.value)
      ensures r.None? && faults == old(faults) ==> NoBackup(Docs(place), path)
    {
      var docs := Docs(place);
      var ok := Access();
      if !ok || NoBackup(docs, path) {
        return None;
      }
      return Some(docs.value[BackupName(path)].bytes);
    }

    /** Recursively removes the staging directory; a failure may leave part of it. */
    method RemoveStage() returns (ok: bool)
      modifies this`stage, this`faults
      ensures faults >= old(faults)
      ensures ok ==> stage.None?
      ensures !ok ==> faults > old(faults)
      ensures old(stage).None? ==> stage.None?
    {
      if * {
        faults := faults + 1;
        if stage.Some? {
          var rest: set<Name> :| true;
          stage := Some(stage.value - rest);
        }
        return false;
      }
      stage := None;
      return true;
    }

    /** Moves the staging directory to its final place in one step. */
    method RenameStageToFinal() returns (ok: bool)
      modifies this
      ensures faults >= old(faults)
      ensures ok ==> old(stage).Some? && old(published).None? && published == old(stage) && stage.None?
      ensures !ok ==> stage == old(stage) && published == old(published)
      ensures !ok && faults == old(faults) ==> stage.None? || published.Some?
    {
      var done := Access();
      if !done || stage.None? || published.Some? {
        return false;
      }
      stage, published := None, stage;
      return true;
    }

    /** A new, empty staging directory. */
    method CreateStage() returns (failure: Option<Error>)
      modifies this`stage, this`faults
      ensures faults >= old(faults)
      ensures failure.None? ==> old(stage).None? && stage == Some(map[])
      ensures failure.Some? ==> stage == old(stage)
      ensures failure.Some? && faults == old(faults) ==> stage.Some?
    {
      var ok := Access();
      if !ok || stage.Some? {
        return Some(TargetUnsafe);
      }
      ok := Access();
      if !ok {
        return Some(CommitFailed);
      }
      stage := Some(map[]);
      return None;
    }
  }

  datatype Place = Staging | Final

  function Other(place: Place): Place {
    if place == Staging then Final else Staging
  }

  /** Only the journal's state may have changed, and only if the rewriting succeeded. */
  predicate JournalRewritten(before: Directory, after: Directory, ok: bool, state: JournalState, attempted: bool, completed: bool) {
    if ok then
      StateOf(before).Some? &&
      after == (before - {JournalNext})[JournalName := JournalDocument(InState(before[JournalName].journal, state, attempted, completed))]
    else
      after - {JournalNext} == before - {JournalNext}
  }

  // ---------------------------------------------------------------- transactions

  class Transaction {
    const store: Store
    var published: bool

    constructor (store: Store, published: bool)
      ensures this.store == store && this.published == published
    {
      this.store := store;
      this.published := published;
    }

    method MarkCommitted() returns (ok: bool)
      requires !published
      modifies store
      ensures store.faults >= old(store.faults) && store.published == old(store.published)
      ensures old(store.stage).Some? <==> store.stage.Some?
      ensures store.stage.Some? ==> JournalRewritten(old(store.stage).value, store.stage.value, ok, StateCommitted, false, false)
      ensures !ok && store.faults == old(store.faults) ==>
                old(store.stage).None? || StateOf(old(store.stage).value).None? || JournalNext in old(store.stage).value
    {
      ok := store.ReplaceJournalState(Staging, StateCommitted, false, false);
      assert store.Docs(Final) == old(store.Docs(Final));
      assert store.Docs(Staging) == store.stage && old(store.Docs(Staging)) == old(store.stage);
    }

    method MarkRolledBack(completed: bool) returns (ok: bool)
      requires !published
      modifies store
      ensures store.faults >= old(store.faults) && store.published == old(store.published)
      ensures old(store.stage).Some? <==> store.stage.Some?
      ensures store.stage.Some? ==>
                JournalRewritten(old(store.stage).value, store.stage.value, ok,
                                 if completed then StateRolledBack else StateRollbackFailed, true, completed)
      ensures !ok && store.faults == old(store.faults) ==>
                old(store.stage).None? || StateOf(old(store.stage).value).None? || JournalNext in old(store.stage).value
    {
      ok := store.ReplaceJournalState(Staging, if completed then StateRolledBack else StateRollbackFailed, true, completed);
      assert store.Docs(Final) == old(store.Docs(Final));
      assert store.Docs(Staging) == store.stage && old(store.Docs(Staging)) == old(store.stage);
    }

    method Publish() returns (ok: bool)
      requires !published
      modifies this, store
      ensures store.faults >= old(store.faults)
      ensures ok ==> old(store.stage).Some? && old(store.published).None? && store.published == old(store.stage) && store.stage.None? && published
      ensures !ok ==> store.stage == old(store.stage) && store.published == old(store.published) && !published
      ensures !ok && store.faults == old(store.faults) ==> store.stage.None? || store.published.Some?
    {
      ok := store.RenameStageToFinal();
      published := ok;
    }

    method Cleanup() returns (ok: bool)
      modifies store
      ensures store.faults >= old(store.faults) && store.published == old(store.published)
      ensures published ==> store.stage == old(store.stage)
      ensures ok && !published ==> store.stage.None?
      ensures !ok ==> store.faults > old(store.faults)
    {
      if published {
        return true;
      }
      ok := store.RemoveStage();
    }

    /** The backup of one replaced file, from wherever the transaction's documents are. */
    method ReadBackup(path: Path) returns (r: Option<Bytes>)
      modifies store`faults
      ensures store.faults >= old(store.faults)
      ensures r.Some? ==> HasBackup(store.Docs(if published then Final else Staging), path, r.value)
      ensures r.None? && store.faults == old(store.faults) ==>
                NoBackup(store.Docs(if published then Final else Staging), path)
    {
      r := store.ReadBackup(if published then Final else Staging, path);
    }
  }

  predicate NoBackup(docs: Option<Directory>, path: Path) {
    docs.None? || BackupName(path) !in docs.value || !docs.value[BackupName(path)].Blob?
  }

  predicate HasBackup(docs: Option<Directory>, path: Path, content: Bytes) {
    docs.Some? && BackupName(path) in docs.value && docs.value[BackupName(path)] == Blob(content)
  }

  // ---------------------------------------------------------------- preparing and publishing

  predicate EmptyBlob(d: Document) {
    d == Blob("")
  }

  /** Writes every document of the bundle; an empty backup or evidence document is refused. */
  method WriteBundle(store: Store, docs: Directory) returns (ok: bool)
    requires store.stage == Some(map[])
    modifies store
    ensures store.faults >= old(store.faults) && store.published == old(store.published)
    ensures ok ==> store.stage == Some(docs) && forall n | n in docs :: !EmptyBlob(docs[n])
    ensures !ok && (forall n | n in docs :: !EmptyBlob(docs[n])) ==> store.faults > old(store.faults)
  {
    var todo := docs.Keys;
    while todo != {}
      invariant todo <= docs.Keys && store.faults >= old(store.faults) && store.published == old(store.published)
      invariant store.stage == Some(map n | n in docs && n !in todo :: docs[n])
      invariant forall n | n in docs && n !in todo :: !EmptyBlob(docs[n])
      decreases todo
    {
      var name :| name in todo;
      if EmptyBlob(docs[name]) {
        return false;
      }
      ok := store.WriteNew(Staging, name, docs[name]);
      assert store.Docs(Final) == store.published && store.Docs(Staging) == store.stage;
      if !ok {
        return;
      }
      todo := todo - {name};
      assert store.stage.value == map n | n in docs && n !in todo :: docs[n];
    }
    assert docs == map n | n in docs && n !in todo :: docs[n];
    return true;
  }

  function CommittedForm(d: Document): Document {
    if d.JournalDocument? then JournalDocument(InState(d.journal, StateCommitted, false, false)) else d
  }

  /** The final directory holds this bundle, committed. */
  ghost predicate HoldsBundle(d: Directory, b: Bundle) {
    forall n | InBundle(b, n) :: n in d && d[n] == CommittedForm(DocumentFor(b, n))
  }

  method ArtifactSetMatches(store: Store, b: Bundle) returns (ok: bool)
    modifies store`faults
    ensures store.faults >= old(store.faults)
    ensures ok ==> store.published.Some? && HoldsBundle(store.published.value, b)
    ensures !ok && store.faults == old(store.faults) ==> store.published.None? || !HoldsBundle(store.published.value, b)
  {
    var docs := BundleDirectory(b);
    assert forall n | n in docs :: InBundle(b, n) && docs[n] == DocumentFor(b, n);
    ok := store.Access();
    ok := ok && store.published.Some? &&
          forall n | n in docs :: n in store.published.value && store.published.value[n] == CommittedForm(docs[n]);
    if ok {
      forall n | InBundle(b, n)
        ensures n in store.published.value && store.published.value[n] == CommittedForm(DocumentFor(b, n))
      {
        assert n in docs;
      }
    }
  }

  /** No document of the bundle is empty; an empty backup or evidence document could not be staged. */
  predicate NoEmptyBlob(b: Bundle) {
    (forall p | p in b.backups :: b.backups[p] != "") && forall p | p in b.evidence :: b.evidence[p] != ""
  }

  lemma NothingEmpty(d: Directory, b: Bundle)
    requires IsBundleDirectory(d, b) && forall n | n in d :: !EmptyBlob(d[n])
    ensures NoEmptyBlob(b)
  {
    forall p | p in b.backups
      ensures b.backups[p] != ""
    {
      assert BackupName(p) in d;
    }
    forall p | p in b.evidence
      ensures b.evidence[p] != ""
    {
      assert EvidenceName(p) in d;
    }
  }

  /** Opens a transaction: everything staged, or recognised as already published. */
  method Prepare(store: Store, b: Bundle) returns (transaction: Transaction?, failure: Option<Error>)
    modifies store
    ensures store.faults >= old(store.faults) && store.published == old(store.published)
    ensures failure.None? <==> transaction != null
    ensures transaction != null ==> fresh(transaction) && transaction.store == store
    ensures transaction != null && transaction.published ==> store.published.Some? && HoldsBundle(store.published.value, b)
    ensures transaction != null && !transaction.published ==>
              store.published.None? && store.stage.Some? && IsBundleDirectory(store.stage.value, b) && NoEmptyBlob(b)
    ensures old(store.published).Some? ==> store.stage == old(store.stage)
    ensures failure.Some? && old(store.stage).None? && store.published.None? && NoEmptyBlob(b) ==> store.faults > old(store.faults)
    ensures failure.Some? && old(store.stage).None? && store.faults == old(store.faults) ==> store.stage.None?
  {
    var accessible := store.Access();
    if !accessible || store.stage.Some? {
      return null, Some(TargetUnsafe);
    }
    accessible := store.Access();
    if !accessible {
      return null, Some(ArtifactStoreFailed);
    }
    if store.published.Some? {
      var same := ArtifactSetMatches(store, b);
      if same {
        transaction := new Transaction(store, true);
        return transaction, None;
      }
      return null, Some(ArtifactConflict);
    }
    var refused := store.CreateStage();
    if refused.Some? {
      return null, refused;
    }
    var docs := BundleDirectory(b);
    var written := WriteBundle(store, docs);
    if !written {
      var _ := store.RemoveStage();
      return null, Some(ArtifactStoreFailed);
    }
    NothingEmpty(docs, b);
    transaction := new Transaction(store, false);
    return transaction, None;
  }

  /** Creates the staged file, or replaces it through a temporary one. */
  method ReplaceStagedResult(store: Store, result: GeneratorResult) returns (ok: bool)
    modifies store
    ensures store.faults >= old(store.faults) && store.published == old(store.published)
    ensures old(store.stage).Some? <==> store.stage.Some?
    ensures store.stage.Some? ==> store.stage.value - {ResultName, ResultNext} == old(store.stage).value - {ResultName, ResultNext}
    ensures ok ==> store.stage.Some? && ResultName in store.stage.value && store.stage.value[ResultName] == ResultDocument(result)
    ensures !ok && store.faults == old(store.faults) ==> old(store.stage).None? || ResultNext in old(store.stage).value
  {
    ok := store.Access();
    if !ok || store.stage.None? {
      return false;
    }
    if ResultName !in store.stage.value {
      ok := store.WriteNew(Staging, ResultName, ResultDocument(result));
      assert store.Docs(Final) == store.published && store.Docs(Staging) == store.stage;
      return;
    }
    ok := store.WriteNew(Staging, ResultNext, ResultDocument(result));
    assert store.Docs(Final) == store.published && store.Docs(Staging) == store.stage;
    if ok {
      ok := store.RenameDocument(Staging, ResultNext, ResultName);
      assert store.Docs(Final) == store.published && store.Docs(Staging) == store.stage;
      if !ok {
        store.RemoveDocument(Staging, ResultNext);
        assert store.Docs(Final) == store.published && store.Docs(Staging) == store.stage;
      }
    }
  }

  lemma OnlyResultDiffers(a: Directory, b: Directory)
    requires a - {ResultName, ResultNext} == b - {ResultName, ResultNext}
    ensures forall n | n != ResultName && n != ResultNext :: (n in a <==> n in b) && (n in a ==> a[n] == b[n])
  {
    forall n | n != ResultName && n != ResultNext
      ensures (n in a <==> n in b) && (n in a ==> a[n] == b[n])
    {
      assert n in a <==> n in a - {ResultName, ResultNext};
      assert n in b <==> n in b - {ResultName, ResultNext};
    }
  }

  method WriteDiagnostics(store: Store, diagnostics: seq<Diagnostic>) returns (ok: bool)
    modifies store
    ensures store.faults >= old(store.faults) && store.published == old(store.published)
    ensures old(store.stage).Some? <==> store.stage.Some?
    ensures store.stage.Some? ==> SameUpToDiagnostics(old(store.stage).value, store.stage.value)
    ensures ok && store.stage.Some? ==> HoldsDiagnostics(store.stage.value, diagnostics)
    ensures !ok && store.faults == old(store.faults) ==> old(store.stage).None? || !NoDiagnostics(old(store.stage).value)
  {
    for i := 0 to |diagnostics|
      invariant store.stage.Some? ==> HoldsDiagnostics(store.stage.value, diagnostics[..i])
      invariant store.stage.Some? && old(store.stage).Some? && NoDiagnostics(old(store.stage).value) ==>
                  forall k | k >= i :: DiagnosticName(k) !in store.stage.value
      invariant store.faults >= old(store.faults) && store.published == old(store.published)
      invariant old(store.stage).Some? <==> store.stage.Some?
      invariant store.stage.Some? ==> SameUpToDiagnostics(old(store.stage).value, store.stage.value)
    {
      ok := store.WriteNew(Staging, DiagnosticName(i), DiagnosticDocument(diagnostics[i]));
      assert store.Docs(Final) == store.published && store.Docs(Staging) == store.stage;
      if !ok {
        return;
      }
    }
    return true;
  }

  ghost predicate NoDiagnostics(d: Directory) {
    forall k :: DiagnosticName(k) !in d
  }

  predicate HoldsDiagnostics(d: Directory, diagnostics: seq<Diagnostic>) {
    forall i | 0 <= i < |diagnostics| :: DiagnosticName(i) in d && d[DiagnosticName(i)] == DiagnosticDocument(diagnostics[i])
  }

  predicate SameUpToDiagnostics(before: Directory, after: Directory) {
    (forall n | n in before && !n.DiagnosticName? :: n in after && after[n] == before[n]) &&
    (forall n | n in after && !n.DiagnosticName? :: n in before)
  }

  /** A failed generation's directory: its own result and diagnostics, and whatever journal had been staged. */
  predicate FailurePublished(staged: Option<Directory>, d: Directory, failure: FailureArtifacts) {
    ResultName in d && d[ResultName] == ResultDocument(failure.result) && HoldsDiagnostics(d, failure.diagnostics) &&
    JournalIn(d) == (if staged.Some? then JournalIn(staged.value) else None)
  }

  /** Everything the publication of a failure needs besides working operations; `staged` says whether a transaction is open. */
  ghost predicate FailurePublishable(stage: Option<Directory>, published: Option<Directory>, staged: bool) {
    published.None? && if staged then stage.Some? && ResultNext !in stage.value && NoDiagnostics(stage.value) else stage.None?
  }

  /** Publishes the evidence of a failure in place of the staged success documents. */
  method PublishFailure(store: Store, failure: FailureArtifacts, given: Transaction?) returns (ok: bool)
    requires given != null ==> given.store == store && !given.published
    requires failure.diagnostics != []
    modifies store, given
    ensures store.faults >= old(store.faults)
    ensures ok ==> old(store.published).None? && store.published.Some? &&
                   FailurePublished(if given == null then None else old(store.stage), store.published.value, failure)
    ensures !ok ==> store.published == old(store.published) && (given != null ==> !given.published)
    ensures ok || (given == null && old(store.stage).None? && store.faults == old(store.faults)) ==> store.stage.None?
    ensures old(store.published).Some? && given == null ==> store.stage == old(store.stage)
    ensures ok && store.faults == old(store.faults) ==> ManifestName !in store.published.value && LockName !in store.published.value
    ensures !ok && store.faults == old(store.faults) ==>
              !FailurePublishable(old(store.stage), old(store.published), given != null)
  {
    var transaction := given;
    if transaction == null {
      var accessible := store.Access();
      if !accessible || store.stage.Some? || store.published.Some? {
        return false;
      }
      var refused := store.CreateStage();
      if refused.Some? {
        return false;
      }
      transaction := new Transaction(store, false);
    }
    ok := StageFailure(store, failure);
    if ok {
      ok := transaction.Publish();
    }
  }

  /** Replaces the staged success documents by the evidence of a failure. */
  method StageFailure(store: Store, failure: FailureArtifacts) returns (ok: bool)
    modifies store
    ensures store.faults >= old(store.faults) && store.published == old(store.published)
    ensures old(store.stage).Some? <==> store.stage.Some?
    ensures ok ==> store.stage.Some? && FailurePublished(old(store.stage), store.stage.value, failure)
    ensures ok && store.faults == old(store.faults) ==> ManifestName !in store.stage.value && LockName !in store.stage.value
    ensures !ok && store.faults == old(store.faults) ==>
              old(store.stage).None? || ResultNext in old(store.stage).value || !NoDiagnostics(old(store.stage).value)
  {
    store.RemoveDocument(Staging, ManifestName);
    assert store.Docs(Final) == store.published && store.Docs(Staging) == store.stage;
    store.RemoveDocument(Staging, LockName);
    assert store.Docs(Final) == store.published && store.Docs(Staging) == store.stage;
    ghost var emptied := store.stage;
    ok := ReplaceStagedResult(store, failure.result);
    if !ok {
      return;
    }
    OnlyResultDiffers(emptied.value, store.stage.value);
    ok := WriteDiagnostics(store, failure.diagnostics);
  }
}
