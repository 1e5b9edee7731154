/**
 The life of one request: any sequence of executions, rollbacks and user edits of the target, one after another.
 */
module Lifecycle {
  import opened Digests
  import opened Ordering
  import opened Paths
  import opened Model
  import opened Overlay
  import opened Disk
  import opened Target
  import opened Artifacts
  import opened ArtifactStore
  import opened Executor
  import opened RollbackExecutor
  import opened RoundTrip

  /** The target, the artifact store, and what complete inspections of the target have found so far. */
  datatype World = World(tree: Tree, stage: Option<Directory>, published: Option<Directory>, seen: seq<Files>)

  /** A call and whether it succeeded. */
  datatype Event = Executed(request: Request, ok: bool) | RolledBack(root: Path, ok: bool) | Edited(tree: Tree)

  /** An execution that worked with this change set, if it got as far as one. */
  ghost predicate Attempted(w: World, request: Request, prepared: PreparedChangeSet, ok: bool, w': World) {
    var after := Overlaid(w.tree.files, Effective(prepared.changes));
    w.seen <= w'.seen &&
    PublishedSoundly(w.published, w'.published, LogFor(prepared.changes),
                     SeenCommitted(w.tree.files, prepared, w'.seen[|w.seen|..]), ok) &&
    TargetSafe(WorkRoots(request), w.tree.files, after, w'.tree.files) &&
    (ok ==> w'.published.Some? && w'.tree.files == after && exists bundle :: Reversible(w.tree.files, prepared, bundle, w'.published)) &&
    (StateIn(w') == Some(StateCommitted) ==> DistinctKeys(prepared.changes, ChangePath))
  }

  ghost predicate Step(w: World, e: Event, w': World) {
    w.seen <= w'.seen &&
    match e
    case Executed(request, ok) =>
      (w.published.Some? ==> w' == w.(seen := w'.seen)) &&
      (w.published.None? ==> exists prepared :: Attempted(w, request, prepared, ok, w'))
    case RolledBack(root, ok) =>
      w'.stage == w.stage && RollbackStep(w.published, w'.published, ok) && (!Committed(w.published) ==> w'.tree == w.tree) &&
      (ok && Committed(w.published) ==> w'.tree.files == UndoneBy(w.published, w.tree.files))
    case Edited(tree) => w' == w.(tree := if Closed(tree) then tree else w.tree)
  }

  /** The `i`-th step of a run. */
  ghost predicate StepIn(worlds: seq<World>, events: seq<Event>, i: nat)
    requires |worlds| == |events| + 1 && i < |events|
  {
    Step(worlds[i], events[i], worlds[i + 1])
  }

  ghost predicate IsRun(worlds: seq<World>, events: seq<Event>) {
    |worlds| == |events| + 1 && forall i | 0 <= i < |events| :: StepIn(worlds, events, i)
  }

  function StateIn(w: World): Option<JournalState> {
    if w.published.Some? then StateOf(w.published.value) else None
  }

  /** The journal moves only from committed to rolled back or failed. */
  predicate MayMove(before: Option<JournalState>, after: Option<JournalState>) {
    before == after || (before == Some(StateCommitted) && (after == Some(StateRolledBack) || after == Some(StateRollbackFailed)))
  }

  function Marked(d: Document): Document {
    if d.JournalDocument? then JournalDocument(InState(d.journal, StatePrepared, false, false)) else d
  }

  /** The same published documents, up to the journal's state and a temporary file beside the journal. */
  ghost predicate SameDocuments(a: Directory, b: Directory) {
    forall n | n != JournalNext :: (n in a <==> n in b) && (n in a ==> if n == JournalName then Marked(a[n]) == Marked(b[n]) else a[n] == b[n])
  }

  lemma RewritingKeepsDocuments(a: Directory, b: Directory, ok: bool, state: JournalState, completed: bool)
    requires JournalRewritten(a, b, ok, state, true, completed)
    ensures SameDocuments(a, b)
    ensures StateOf(b) == if ok then Some(state) else StateOf(a)
  {
    if !ok {
      assert StateOf(a) == StateOf(a - {JournalNext}) && StateOf(b) == StateOf(b - {JournalNext});
    }
    forall n | n != JournalNext
      ensures (n in a <==> n in b) && (n in a ==> if n == JournalName then Marked(a[n]) == Marked(b[n]) else a[n] == b[n])
    {
      assert n in a <==> n in a - {JournalNext};
      assert n in b <==> n in b - {JournalNext};
      if !ok && n in a {
        assert (a - {JournalNext})[n] == a[n] && (b - {JournalNext})[n] == b[n];
      }
    }
  }

  /** One step after publication. */
  lemma PublishedStep(w: World, e: Event, w': World)
    requires Step(w, e, w') && w.published.Some?
    ensures w'.published.Some? && SameDocuments(w.published.value, w'.published.value)
    ensures MayMove(StateIn(w), StateIn(w'))
    ensures e.Executed? ==> w' == w.(seen := w'.seen)
    ensures e.RolledBack? && w'.tree != w.tree ==> StateIn(w) == Some(StateCommitted)
  {
    var a := w.published.value;
    if e.RolledBack? && Committed(w.published) && w'.published != w.published {
      var b := w'.published.value;
      if JournalRewritten(a, b, e.ok, StateRolledBack, true, true) {
        RewritingKeepsDocuments(a, b, e.ok, StateRolledBack, true);
      } else {
        var marked :| marked in {true, false} && JournalRewritten(a, b, marked, StateRollbackFailed, true, false);
        RewritingKeepsDocuments(a, b, marked, StateRollbackFailed, false);
      }
    }
  }

  /** Once published, the documents stay published and unchanged up to the journal's state, which only moves forward. */
  lemma {:induction false} PublishedForGood(worlds: seq<World>, events: seq<Event>, i: nat, j: nat)
    requires IsRun(worlds, events) && i <= j < |worlds| && worlds[i].published.Some?
    ensures worlds[j].published.Some? && SameDocuments(worlds[i].published.value, worlds[j].published.value)
    ensures MayMove(StateIn(worlds[i]), StateIn(worlds[j]))
    decreases j
  {
    if i < j {
      PublishedForGood(worlds, events, i, j - 1);
      assert StepIn(worlds, events, j - 1);
      PublishedStep(worlds[j - 1], events[j - 1], worlds[j]);
    }
  }

  /** The journal records a change set whose commit one of these inspections found in place, exactly as predicted. */
  ghost predicate RecordsSeen(base: Files, looks: seq<Files>, published: Option<Directory>) {
    HasJournal(published) && exists prepared ::
      SeenCommitted(base, prepared, looks) && DistinctKeys(prepared.changes, ChangePath) &&
      JournalOf(published).changes == LogFor(prepared.changes)
  }

  /** The step that publishes a committed journal. */
  lemma CommittedStep(w: World, e: Event, w': World)
    requires Step(w, e, w') && w.published.None? && StateIn(w') == Some(StateCommitted)
    ensures CommittedIn(w, e, w', w'.published)
  {
  }

  /** The step is an execution that published first and saw the changes this journal records. */
  ghost predicate CommittedIn(w: World, e: Event, w': World, published: Option<Directory>) {
    e.Executed? && w.published.None? && w'.published.Some? && w.seen <= w'.seen &&
    RecordsSeen(w.tree.files, w'.seen[|w.seen|..], published)
  }

  lemma StillCommittedIn(w: World, e: Event, w': World, before: Option<Directory>, after: Option<Directory>)
    requires CommittedIn(w, e, w', before) && after.Some? && SameDocuments(before.value, after.value)
    ensures CommittedIn(w, e, w', after)
  {
    SameLog(before, after);
  }

  /**
   A published journal that says committed was published by an execution during which an inspection found the target
   with the very changes the journal records, exactly as the predicted snapshot says.
   */
  lemma {:induction false} CommittedWasSeen(worlds: seq<World>, events: seq<Event>, j: nat)
    requires IsRun(worlds, events) && j < |worlds| && worlds[0].published.None?
    requires StateIn(worlds[j]) == Some(StateCommitted)
    ensures exists i :: 0 <= i < j && CommittedIn(worlds[i], events[i], worlds[i + 1], worlds[j].published)
  {
    assert StepIn(worlds, events, j - 1);
    if worlds[j - 1].published.None? {
      CommittedStep(worlds[j - 1], events[j - 1], worlds[j]);
    } else {
      PublishedStep(worlds[j - 1], events[j - 1], worlds[j]);
      CommittedWasSeen(worlds, events, j - 1);
      var i :| 0 <= i < j - 1 && CommittedIn(worlds[i], events[i], worlds[i + 1], worlds[j - 1].published);
      StillCommittedIn(worlds[i], events[i], worlds[i + 1], worlds[j - 1].published, worlds[j].published);
    }
  }

  /** All recorded changes, and nothing else, went into the target in this step, which reported success. */
  ghost predicate Delivers(w: World, e: Event, w': World) {
    e.Executed? && e.ok && w.published.None? && w'.published.Some? && w.seen <= w'.seen && exists prepared ::
      SeenCommitted(w.tree.files, prepared, w'.seen[|w.seen|..]) && LogOf(w'.published.value) == Some(LogFor(prepared.changes)) &&
      w'.tree.files == Overlaid(w.tree.files, Effective(prepared.changes))
  }

  /** A published result that says succeeded was published by a successful execution, with the whole change set in place. */
  lemma {:induction false} SucceededWasDelivered(worlds: seq<World>, events: seq<Event>, j: nat)
    requires IsRun(worlds, events) && j < |worlds| && worlds[0].published.None?
    requires worlds[j].published.Some? && ResultOf(worlds[j].published.value) == Some(Succeeded)
    ensures exists i :: 0 <= i < j && Delivers(worlds[i], events[i], worlds[i + 1])
  {
    assert StepIn(worlds, events, j - 1);
    if worlds[j - 1].published.None? {
      assert Delivers(worlds[j - 1], events[j - 1], worlds[j]);
    } else {
      PublishedStep(worlds[j - 1], events[j - 1], worlds[j]);
      SucceededWasDelivered(worlds, events, j - 1);
    }
  }

  /** Over any run a committed journal names no path twice. */
  lemma JournalsNameOnce(worlds: seq<World>, events: seq<Event>, j: nat)
    requires IsRun(worlds, events) && j < |worlds| && worlds[0].published.None?
    ensures NamesPathsOnce(worlds[j].published)
  {
    if StateIn(worlds[j]) == Some(StateCommitted) {
      CommittedWasSeen(worlds, events, j);
      var i :| 0 <= i < j && CommittedIn(worlds[i], events[i], worlds[i + 1], worlds[j].published);
      RecordedOnce(worlds[i].tree.files, worlds[i + 1].seen[|worlds[i].seen|..], worlds[j].published);
    }
  }

  lemma RecordedOnce(base: Files, looks: seq<Files>, published: Option<Directory>)
    requires RecordsSeen(base, looks, published)
    ensures DistinctKeys(JournalOf(published).changes, JournalPath)
  {
    var prepared :| SeenCommitted(base, prepared, looks) && DistinctKeys(prepared.changes, ChangePath) &&
                    JournalOf(published).changes == LogFor(prepared.changes);
    LogDistinct(prepared.changes);
  }

  lemma LogDistinct(changes: seq<FileChange>)
    requires DistinctKeys(changes, ChangePath)
    ensures DistinctKeys(LogFor(changes), JournalPath)
  {
    forall i, j | 0 <= i < j < |changes|
      ensures JournalPath(LogFor(changes)[i]) != JournalPath(LogFor(changes)[j])
    {
      assert ChangePath(changes[i]) != ChangePath(changes[j]);
    }
  }

  /**
   Over any run: what a successful execution did, a successful rollback undoes, however much later, if the target is then
   as the execution left it.
   */
  lemma LaterRollback(worlds: seq<World>, events: seq<Event>, i: nat, j: nat)
    requires IsRun(worlds, events) && i < j < |events| && worlds[0].published.None?
    requires worlds[i].published.None? && events[i].Executed? && events[i].ok
    requires StateIn(worlds[j]) == Some(StateCommitted) && events[j].RolledBack? && events[j].ok
    requires worlds[j].tree.files == worlds[i + 1].tree.files
    ensures worlds[j + 1].tree.files == worlds[i].tree.files
  {
    ExecutedPublishes(worlds, events, i);
    PublishedForGood(worlds, events, i + 1, j);
    UndoneLater(worlds, events, i, worlds[j].published);
    UndoneNow(worlds, events, j);
  }

  lemma ExecutedPublishes(worlds: seq<World>, events: seq<Event>, i: nat)
    requires IsRun(worlds, events) && i < |events| && events[i].Executed? && events[i].ok && worlds[i].published.None?
    ensures worlds[i + 1].published.Some?
  {
    assert StepIn(worlds, events, i);
  }

  /** What a successful execution did, its journal undoes, in whatever state that is later. */
  lemma UndoneLater(worlds: seq<World>, events: seq<Event>, i: nat, later: Option<Directory>)
    requires IsRun(worlds, events) && i < |events| && events[i].Executed? && events[i].ok && worlds[i].published.None?
    requires worlds[i + 1].published.Some? && later.Some? && SameDocuments(worlds[i + 1].published.value, later.value)
    ensures UndoneBy(later, worlds[i + 1].tree.files) == worlds[i].tree.files
  {
    var w, w' := worlds[i], worlds[i + 1];
    assert StepIn(worlds, events, i);
    var prepared :| Attempted(w, events[i].request, prepared, true, w');
    var bundle :| Reversible(w.tree.files, prepared, bundle, w'.published);
    UndoneByJournal(w.tree.files, prepared, bundle, w'.published, later);
  }

  lemma UndoneByJournal(base: Files, prepared: PreparedChangeSet, bundle: Bundle, published: Option<Directory>, later: Option<Directory>)
    requires Reversible(base, prepared, bundle, published) && later.Some? && SameDocuments(published.value, later.value)
    ensures UndoneBy(later, Overlaid(base, Effective(prepared.changes))) == base
  {
    PublishedDocuments(base, prepared, bundle, published);
    SameLog(published, later);
    UndoneIsBase(base, prepared.changes, bundle.rollback.files, bundle.journal.changes);
  }

  lemma UndoneNow(worlds: seq<World>, events: seq<Event>, j: nat)
    requires IsRun(worlds, events) && worlds[0].published.None? && j < |events|
    requires events[j].RolledBack? && events[j].ok && StateIn(worlds[j]) == Some(StateCommitted)
    ensures worlds[j + 1].tree.files == UndoneBy(worlds[j].published, worlds[j].tree.files)
  {
    JournalsNameOnce(worlds, events, j);
    assert StepIn(worlds, events, j);
  }

  lemma SameLog(before: Option<Directory>, after: Option<Directory>)
    requires HasJournal(before) && after.Some? && SameDocuments(before.value, after.value)
    ensures HasJournal(after) && JournalOf(after).changes == JournalOf(before).changes
  {
    assert Marked(before.value[JournalName]) == Marked(after.value[JournalName]);
  }

  /** After publication, only a rollback of a committed generation or the user changes the target. */
  lemma TargetLeftAlone(worlds: seq<World>, events: seq<Event>, i: nat, j: nat)
    requires IsRun(worlds, events) && i <= j < |events| && worlds[i].published.Some?
    ensures events[j].Executed? ==> worlds[j + 1] == worlds[j].(seen := worlds[j + 1].seen)
    ensures worlds[j + 1].tree != worlds[j].tree ==>
              events[j].Edited? || (events[j].RolledBack? && StateIn(worlds[j]) == Some(StateCommitted))
  {
    assert StepIn(worlds, events, j);
    PublishedForGood(worlds, events, i, j);
    PublishedStep(worlds[j], events[j], worlds[j + 1]);
  }

  /** At most one rollback ever succeeds in changing the journal, and none does after one has been marked failed. */
  lemma OneMove(worlds: seq<World>, events: seq<Event>, i: nat, j: nat)
    requires IsRun(worlds, events) && i < j < |events|
    requires worlds[i].published.Some? && StateIn(worlds[i + 1]) != StateIn(worlds[i])
    ensures StateIn(worlds[j + 1]) == StateIn(worlds[i + 1])
  {
    assert StepIn(worlds, events, i);
    PublishedStep(worlds[i], events[i], worlds[i + 1]);
    PublishedForGood(worlds, events, i + 1, j + 1);
  }

  // ---------------------------------------------------------------- the calls make such runs

  datatype Command =
    | Generate(request: Request, plan: Option<Plan>, evidence: map<Path, Bytes>, rendered: Result<seq<RenderedFile>, Error>,
               previous: seq<LockedFile>, previousPresent: bool)
    | TakeBack(root: Path, cancelled: bool)
    | Edit(tree: Tree)

  /** A first execution is such an attempt. */
  lemma FirstExecution(w: World, request: Request, run: Run, ok: bool, w': World, r: CommitResult, errors: Errors)
    requires w.published.None? && w.seen <= w'.seen && ok == (errors == {})
    requires TargetKept(request, w.tree, run, w'.tree, r, errors)
    requires PublishingSound(w.tree.files, run, None, w'.published, w'.seen[|w.seen|..], ok)
    requires ok ==> run.attempted && exists bundle :: Reversible(w.tree.files, run.prepared, bundle, w'.published)
    requires run.attempted && NoneUnset(run.prepared.changes) ==> DistinctKeys(run.prepared.changes, ChangePath)
    ensures Attempted(w, request, run.prepared, ok, w')
  {
  }

  /** The event a command is, given its result. */
  function EventOf(c: Command, ok: bool): Event {
    match c
    case Generate(request, _, _, _, _, _) => Executed(request, ok)
    case TakeBack(root, _) => RolledBack(root, ok)
    case Edit(tree) => Edited(tree)
  }

  /** One call. */
  method Perform(fs: Filesystem, store: Store, contracts: Contracts, c: Command) returns (ok: bool)
    requires Closed(fs.tree)
    modifies fs, store
    ensures Closed(fs.tree)
    ensures Step(World(old(fs.tree), old(store.stage), old(store.published), old(fs.seen)), EventOf(c, ok),
                 World(fs.tree, store.stage, store.published, fs.seen))
  {
    ghost var was := World(fs.tree, store.stage, store.published, fs.seen);
    match c {
      case Generate(request, plan, evidence, rendered, previous, previousPresent) =>
        var outcome, errors;
        ghost var run;
        outcome, errors, run := Execute(fs, store, contracts, request, plan, evidence, rendered, previous, previousPresent);
        ok := errors == {};
        if was.published.None? {
          assert ok ==> Reversible(was.tree.files, run.prepared, outcome.bundle.value, store.published);
          FirstExecution(was, request, run, ok, World(fs.tree, store.stage, store.published, fs.seen), outcome.commit, errors);
        }
      case TakeBack(root, cancelled) =>
        var r := Rollback(fs, store, root, cancelled);
        ok := r.Ok?;
      case Edit(tree) =>
        if Closed(tree) {
          fs.tree := tree;
        }
        ok := true;
    }
  }

  /** Any sequence of calls is such a run, event by event, and every call in it is one the store is ready for. */
  method PerformAll(fs: Filesystem, store: Store, contracts: Contracts, commands: seq<Command>) returns (results: seq<bool>, ghost worlds: seq<World>)
    requires Closed(fs.tree)
    modifies fs, store
    ensures Closed(fs.tree) && |results| == |commands|
    ensures IsRun(worlds, seq(|commands|, i requires 0 <= i < |commands| => EventOf(commands[i], results[i])))
    ensures worlds[0] == World(old(fs.tree), old(store.stage), old(store.published), old(fs.seen))
    ensures worlds[|commands|] == World(fs.tree, store.stage, store.published, fs.seen)
  {
    results, worlds := [], [World(fs.tree, store.stage, store.published, fs.seen)];
    for i := 0 to |commands|
      invariant Closed(fs.tree)
      invariant |results| == i && |worlds| == i + 1
      invariant forall k | 0 <= k < i :: Step(worlds[k], EventOf(commands[k], results[k]), worlds[k + 1])
      invariant worlds[0] == World(old(fs.tree), old(store.stage), old(store.published), old(fs.seen))
      invariant worlds[i] == World(fs.tree, store.stage, store.published, fs.seen)
    {
      var ok := Perform(fs, store, contracts, commands[i]);
      results, worlds := results + [ok], worlds + [World(fs.tree, store.stage, store.published, fs.seen)];
    }
  }
}
