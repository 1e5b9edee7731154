/**
 The migration runner: one history table, migrations applied in order and taken down in reverse, one transaction
 each. A transaction may fail and then leaves nothing; an advisory lock keeps runs apart.
 */
module Migrations {
  import opened Digests

  datatype Migration = Migration(version: int, name: string, upChecksum: string, downChecksum: string)

  datatype Applied = Applied(name: string, upChecksum: string, downChecksum: string)

  type History = map<int, Applied>

  function AppliedOf(m: Migration): Applied {
    Applied(m.name, m.upChecksum, m.downChecksum)
  }

  /** Loaded migrations come sorted by version, one per version. */
  predicate InOrder(loaded: seq<Migration>) {
    forall i, j | 0 <= i < j < |loaded| :: loaded[i].version < loaded[j].version
  }

  /** The history records exactly the first `n` migrations. */
  predicate IsPrefix(loaded: seq<Migration>, applied: History, n: nat) {
    n <= |loaded| &&
    (forall i | 0 <= i < n :: loaded[i].version in applied && applied[loaded[i].version] == AppliedOf(loaded[i])) &&
    forall v | v in applied :: exists i | 0 <= i < n :: loaded[i].version == v
  }

  ghost predicate MatchingPrefix(loaded: seq<Migration>, applied: History) {
    exists n :: IsPrefix(loaded, applied, n)
  }

  // ---------------------------------------------------------------- validating the history

  /** The recorded versions among the first `i`, all of them matching, come before the first pending one. */
  predicate SeenSoFar(loaded: seq<Migration>, applied: History, i: nat, seenPending: bool, n: nat)
    requires i <= |loaded|
  {
    n <= i && (seenPending <==> n < i) &&
    (forall k | 0 <= k < n :: loaded[k].version in applied && applied[loaded[k].version] == AppliedOf(loaded[k])) &&
    forall k | n <= k < i :: loaded[k].version !in applied
  }

  method ValidateHistory(loaded: seq<Migration>, applied: History) returns (ok: bool)
    requires InOrder(loaded)
    ensures ok <==> MatchingPrefix(loaded, applied)
  {
    var seenPending := false;
    var known: set<int> := {};
    ghost var n := 0;
    for i := 0 to |loaded|
      invariant SeenSoFar(loaded, applied, i, seenPending, n)
      invariant forall v :: v in known <==> exists k | 0 <= k < i :: loaded[k].version == v
    {
      var m := loaded[i];
      known := known + {m.version};
      if m.version !in applied {
        seenPending := true;
      } else {
        if seenPending {
          GapRejects(loaded, applied, n, i);
          return false;
        }
        var history := applied[m.version];
        if history.name != m.name || history.upChecksum != m.upChecksum || history.downChecksum != m.downChecksum {
          MismatchRejects(loaded, applied, i);
          return false;
        }
        n := n + 1;
      }
    }
    if exists v | v in applied :: v !in known {
      return false;
    }
    forall v | v in applied
      ensures exists k | 0 <= k < n :: loaded[k].version == v
    {
      var k :| 0 <= k < |loaded| && loaded[k].version == v;
    }
    assert IsPrefix(loaded, applied, n);
    return true;
  }

  /** Within a prefix, a recorded version is that of a migration in it. */
  lemma RecordedInside(loaded: seq<Migration>, applied: History, n: nat, i: nat)
    requires InOrder(loaded) && IsPrefix(loaded, applied, n) && i < |loaded|
    ensures loaded[i].version in applied <==> i < n
  {
    assert forall k | 0 <= k < n && k != i :: loaded[k].version != loaded[i].version;
  }

  lemma GapRejects(loaded: seq<Migration>, applied: History, n: nat, i: nat)
    requires InOrder(loaded) && n < i < |loaded| && loaded[n].version !in applied && loaded[i].version in applied
    ensures !MatchingPrefix(loaded, applied)
  {
    if m: nat :| IsPrefix(loaded, applied, m) {
      RecordedInside(loaded, applied, m, n);
      RecordedInside(loaded, applied, m, i);
    }
  }

  lemma MismatchRejects(loaded: seq<Migration>, applied: History, i: nat)
    requires InOrder(loaded) && i < |loaded| && loaded[i].version in applied && applied[loaded[i].version] != AppliedOf(loaded[i])
    ensures !MatchingPrefix(loaded, applied)
  {
    if m: nat :| IsPrefix(loaded, applied, m) {
      RecordedInside(loaded, applied, m, i);
    }
  }

  /** What a history must be: every record that of a loaded migration, none missing before one that is recorded. */
  ghost predicate Recorded(loaded: seq<Migration>, applied: History) {
    (forall v | v in applied :: exists i | 0 <= i < |loaded| :: loaded[i].version == v) &&
    (forall i | 0 <= i < |loaded| && loaded[i].version in applied ::
       applied[loaded[i].version].name == loaded[i].name && applied[loaded[i].version].upChecksum == loaded[i].upChecksum &&
       applied[loaded[i].version].downChecksum == loaded[i].downChecksum) &&
    forall i, j | 0 <= i < j < |loaded| && loaded[j].version in applied :: loaded[i].version in applied
  }

  lemma HistoryExactly(loaded: seq<Migration>, applied: History)
    requires InOrder(loaded)
    ensures MatchingPrefix(loaded, applied) <==> Recorded(loaded, applied)
  {
    if n: nat :| IsPrefix(loaded, applied, n) {
      forall i | 0 <= i < |loaded|
        ensures loaded[i].version in applied <==> i < n
      {
        RecordedInside(loaded, applied, n, i);
      }
    }
    if Recorded(loaded, applied) {
      var n := FirstPending(loaded, applied);
      assert IsPrefix(loaded, applied, n);
    }
  }

  lemma FirstPending(loaded: seq<Migration>, applied: History) returns (n: nat)
    ensures n <= |loaded| && (forall i | 0 <= i < n :: loaded[i].version in applied)
    ensures n < |loaded| ==> loaded[n].version !in applied
  {
    n := 0;
    while n < |loaded| && loaded[n].version in applied
      invariant n <= |loaded| && forall i | 0 <= i < n :: loaded[i].version in applied
    {
      n := n + 1;
    }
  }

  /** The matching prefix is unique, so a history says exactly how far the runs have come. */
  lemma PrefixUnique(loaded: seq<Migration>, applied: History, m: nat, n: nat)
    requires InOrder(loaded) && IsPrefix(loaded, applied, m) && IsPrefix(loaded, applied, n)
    ensures m == n
  {
    if m < |loaded| {
      RecordedInside(loaded, applied, m, m);
      RecordedInside(loaded, applied, n, m);
    }
    if n < |loaded| {
      RecordedInside(loaded, applied, m, n);
      RecordedInside(loaded, applied, n, n);
    }
  }

  /** A history stays valid when migrations are added behind the loaded ones. */
  lemma MoreMigrations(loaded: seq<Migration>, more: seq<Migration>, applied: History)
    requires MatchingPrefix(loaded, applied) && loaded <= more
    ensures MatchingPrefix(more, applied)
  {
    var n :| IsPrefix(loaded, applied, n);
    assert IsPrefix(more, applied, n);
  }

  // ---------------------------------------------------------------- the database

  datatype Event = Up(version: int) | Down(version: int)

  /** Whether the last thing that happened to this version was its up. */
  function Standing(log: seq<Event>, v: int): bool {
    if log == [] then false
    else if log[|log| - 1].version == v then log[|log| - 1].Up?
    else Standing(log[..|log| - 1], v)
  }

  /** No version goes up twice without its down in between, nor down without its up. */
  predicate Alternates(log: seq<Event>) {
    log == [] ||
    (Alternates(log[..|log| - 1]) && (Standing(log[..|log| - 1], log[|log| - 1].version) <==> log[|log| - 1].Down?))
  }

  lemma LogAppend(log: seq<Event>, e: Event)
    requires Alternates(log) && (Standing(log, e.version) <==> e.Down?)
    ensures Alternates(log + [e])
    ensures forall v :: Standing(log + [e], v) == if v == e.version then e.Up? else Standing(log, v)
  {
    assert (log + [e])[..|log|] == log;
  }

  class Database {
    /** The history table, if it exists. */
    var history: Option<History>
    /** Every up and down that was ever committed, in order. */
    ghost var log: seq<Event>
    ghost var faults: nat

    constructor ()
      ensures Valid() && history.None? && log == []
    {
      history, log, faults := None, [], 0;
    }

    /** The versions in the history are exactly those that are up. */
    ghost predicate Valid()
      reads this
    {
      Alternates(log) && forall v :: Standing(log, v) <==> history.Some? && v in history.value
    }

    method EnsureHistory() returns (ok: bool)
      requires Valid()
      modifies this
      ensures Valid() && faults >= old(faults) && log == old(log)
      ensures ok ==> history == if old(history).Some? then old(history) else Some(map[])
      ensures !ok ==> history == old(history) && faults > old(faults)
    {
      if * {
        faults := faults + 1;
        return false;
      }
      if history.None? {
        history := Some(map[]);
      }
      return true;
    }

    /** One up migration and its history row, in one transaction. */
    method ApplyOne(m: Migration) returns (ok: bool)
      requires Valid() && history.Some? && m.version !in history.value
      modifies this
      ensures Valid() && faults >= old(faults)
      ensures ok ==> history == Some(old(history).value[m.version := AppliedOf(m)]) && log == old(log) + [Up(m.version)]
      ensures !ok ==> history == old(history) && log == old(log) && faults > old(faults)
    {
      if * {
        faults := faults + 1;
        return false;
      }
      LogAppend(log, Up(m.version));
      history := Some(history.value[m.version := Applied(m.name, m.upChecksum, m.downChecksum)]);
      log := log + [Up(m.version)];
      return true;
    }

    /** One down migration; the first one drops the history table along with it. */
    method TakeDown(m: Migration, first: bool) returns (ok: bool)
      requires Valid() && history.Some? && m.version in history.value
      requires first ==> history.value.Keys == {m.version}
      modifies this
      ensures Valid() && faults >= old(faults)
      ensures ok ==> history == (if first then None else Some(old(history).value - {m.version})) && log == old(log) + [Down(m.version)]
      ensures !ok ==> history == old(history) && log == old(log) && faults > old(faults)
    {
      if * {
        faults := faults + 1;
        return false;
      }
      LogAppend(log, Down(m.version));
      history, log := if first then None else Some(history.value - {m.version}), log + [Down(m.version)];
      return true;
    }
  }

  // ---------------------------------------------------------------- the runs

  /** No history at all, or one that records exactly the first migrations. */
  ghost predicate Resumable(loaded: seq<Migration>, history: Option<History>) {
    history.None? || MatchingPrefix(loaded, history.value)
  }

  /** The first `n` migrations, and no others, are applied. */
  ghost predicate AtLevel(loaded: seq<Migration>, history: Option<History>, n: nat) {
    n <= |loaded| && if history.None? then n == 0 else IsPrefix(loaded, history.value, n)
  }

  /** What a run up from one level to another commits: each migration in between once, in order. */
  function Ups(loaded: seq<Migration>, from: nat, to: nat): seq<Event>
    requires from <= to <= |loaded|
  {
    if from == to then [] else Ups(loaded, from, to - 1) + [Up(loaded[to - 1].version)]
  }

  /** What a run down commits: the same in reverse. */
  function Downs(loaded: seq<Migration>, from: nat, to: nat): seq<Event>
    requires to <= from <= |loaded|
    decreases from - to
  {
    if from == to then [] else Downs(loaded, from, to + 1) + [Down(loaded[to].version)]
  }

  /** Where a history stands; 0 also for one no run would accept. */
  ghost function LevelOf(loaded: seq<Migration>, history: Option<History>): (n: nat)
    ensures Resumable(loaded, history) ==> AtLevel(loaded, history, n)
    ensures n <= |loaded|
  {
    assert history.Some? && MatchingPrefix(loaded, history.value) ==> exists n: nat :: IsPrefix(loaded, history.value, n) && AtLevel(loaded, history, n);
    assert history.None? ==> AtLevel(loaded, history, 0);
    if n: nat :| AtLevel(loaded, history, n) then n else 0
  }

  /** What one run does: from level to level, upwards or downwards, all the way if it succeeds, one transaction each. */
  ghost predicate RanUp(loaded: seq<Migration>, before: Option<History>, log0: seq<Event>, after: Option<History>, log: seq<Event>, ok: bool) {
    var n, m := LevelOf(loaded, before), LevelOf(loaded, after);
    n <= m && log == log0 + Ups(loaded, n, m) && (ok ==> m == |loaded|)
  }

  ghost predicate RanDown(loaded: seq<Migration>, before: Option<History>, log0: seq<Event>, after: Option<History>, log: seq<Event>, ok: bool) {
    var n, m := LevelOf(loaded, before), LevelOf(loaded, after);
    m <= n && log == log0 + Downs(loaded, n, m) && (ok ==> m == 0)
  }

  lemma LevelIs(loaded: seq<Migration>, history: Option<History>, n: nat)
    requires InOrder(loaded) && AtLevel(loaded, history, n)
    ensures LevelOf(loaded, history) == n && Resumable(loaded, history)
  {
    if history.Some? {
      PrefixUnique(loaded, history.value, n, LevelOf(loaded, history));
    }
  }

  lemma OneMore(loaded: seq<Migration>, applied: History, n: nat)
    requires InOrder(loaded) && IsPrefix(loaded, applied, n) && n < |loaded|
    ensures loaded[n].version !in applied && IsPrefix(loaded, applied[loaded[n].version := AppliedOf(loaded[n])], n + 1)
  {
    RecordedInside(loaded, applied, n, n);
    var more := applied[loaded[n].version := AppliedOf(loaded[n])];
    assert forall k | 0 <= k < n :: loaded[k].version != loaded[n].version;
    forall v | v in more
      ensures exists i | 0 <= i < n + 1 :: loaded[i].version == v
    {
      if v in applied {
        var i :| 0 <= i < n && loaded[i].version == v;
      }
    }
  }

  lemma OneLess(loaded: seq<Migration>, applied: History, n: nat)
    requires InOrder(loaded) && IsPrefix(loaded, applied, n + 1)
    ensures loaded[n].version in applied && IsPrefix(loaded, applied - {loaded[n].version}, n)
    ensures n == 0 ==> applied.Keys == {loaded[0].version}
  {
    assert forall k | 0 <= k < n :: loaded[k].version != loaded[n].version;
    forall v | v in applied
      ensures n == 0 ==> v == loaded[0].version
    {
      var i :| 0 <= i < n + 1 && loaded[i].version == v;
    }
    forall v | v in applied - {loaded[n].version}
      ensures exists i | 0 <= i < n :: loaded[i].version == v
    {
      var i :| 0 <= i < n + 1 && loaded[i].version == v;
    }
  }

  /**
   Applies what is pending, in order and once each. A valid history stays a matching prefix, never shorter, wherever the
   run is cut off; an invalid one is left alone; and without a failing transaction the run completes.
   */
  method ApplyUp(db: Database, loaded: seq<Migration>) returns (ok: bool)
    requires db.Valid() && InOrder(loaded)
    modifies db
    ensures db.Valid() && db.faults >= old(db.faults) && old(db.log) <= db.log
    ensures old(Resumable(loaded, db.history)) ==>
              Resumable(loaded, db.history) && RanUp(loaded, old(db.history), old(db.log), db.history, db.log, ok)
    ensures !old(Resumable(loaded, db.history)) ==> !ok && db.history == old(db.history) && db.log == old(db.log)
    ensures ok ==> loaded != [] && db.history.Some? && IsPrefix(loaded, db.history.value, |loaded|)
    ensures old(db.history).Some? ==> db.history.Some? && old(db.history).value.Keys <= db.history.value.Keys
    ensures !ok && db.faults == old(db.faults) ==> loaded == [] || !old(Resumable(loaded, db.history))
  {
    ghost var log0, n := db.log, LevelOf(loaded, db.history);
    if loaded == [] {
      return false;
    }
    ok := db.EnsureHistory();
    if !ok {
      return;
    }
    EmptyIsPrefix(loaded);
    ok := ValidateHistory(loaded, db.history.value);
    if !ok {
      return;
    }
    StartLevel(loaded, old(db.history), db.history, n);
    ghost var reached;
    NothingClimbed(loaded, db.history.value, n, db.log);
    ok, reached := ApplyPending(db, loaded, db.history.value, n);
    LevelIs(loaded, db.history, if reached <= n then n else reached);
  }

  lemma NothingClimbed(loaded: seq<Migration>, applied: History, n: nat, log: seq<Event>)
    requires IsPrefix(loaded, applied, n)
    ensures Climbed(loaded, applied, n, 0, log, Some(applied), log)
  {
  }

  /** The loop of a run up. */
  method ApplyPending(db: Database, loaded: seq<Migration>, applied: History, ghost n: nat) returns (ok: bool, ghost reached: nat)
    requires db.Valid() && InOrder(loaded) && IsPrefix(loaded, applied, n)
    requires Climbed(loaded, applied, n, 0, db.log, db.history, db.log)
    modifies db
    ensures db.Valid() && db.faults >= old(db.faults)
    ensures Climbed(loaded, applied, n, reached, old(db.log), db.history, db.log)
    ensures ok ==> reached == |loaded|
    ensures !ok ==> db.faults > old(db.faults)
  {
    ghost var log0 := db.log;
    var i := 0;
    ok := true;
    while ok && i < |loaded|
      invariant i <= |loaded| && db.Valid() && db.faults >= old(db.faults)
      invariant !ok ==> db.faults > old(db.faults)
      invariant Climbed(loaded, applied, n, i, log0, db.history, db.log)
      decreases ok, |loaded| - i
    {
      ok := ApplyNext(db, loaded, applied, i, n, log0);
      i := if ok then i + 1 else i;
    }
    reached := i;
  }

  /** A run up that has gone through the first `i` migrations, of which `n` were applied before. */
  ghost predicate Climbed(loaded: seq<Migration>, applied: History, n: nat, i: nat, log0: seq<Event>, history: Option<History>, log: seq<Event>) {
    var m := if i <= n then n else i;
    m <= |loaded| && history.Some? && applied.Keys <= history.value.Keys && (i <= n ==> history == Some(applied)) &&
    IsPrefix(loaded, history.value, m) && log == log0 + Ups(loaded, n, m)
  }

  method ApplyNext(db: Database, loaded: seq<Migration>, applied: History, i: nat, ghost n: nat, ghost log0: seq<Event>) returns (ok: bool)
    requires db.Valid() && InOrder(loaded) && IsPrefix(loaded, applied, n) && i < |loaded|
    requires Climbed(loaded, applied, n, i, log0, db.history, db.log)
    modifies db
    ensures db.Valid() && db.faults >= old(db.faults)
    ensures Climbed(loaded, applied, n, if ok then i + 1 else i, log0, db.history, db.log)
    ensures !ok ==> db.faults > old(db.faults)
  {
    ClimbStep(loaded, applied, n, i, log0, db.history.value, db.log);
    if loaded[i].version in applied {
      return true;
    }
    ok := db.ApplyOne(loaded[i]);
  }

  lemma ClimbStep(loaded: seq<Migration>, applied: History, n: nat, i: nat, log0: seq<Event>, history: History, log: seq<Event>)
    requires InOrder(loaded) && IsPrefix(loaded, applied, n) && i < |loaded|
    requires Climbed(loaded, applied, n, i, log0, Some(history), log)
    ensures loaded[i].version in applied ==> Climbed(loaded, applied, n, i + 1, log0, Some(history), log)
    ensures loaded[i].version !in applied ==>
              loaded[i].version !in history &&
              Climbed(loaded, applied, n, i + 1, log0, Some(history[loaded[i].version := AppliedOf(loaded[i])]), log + [Up(loaded[i].version)])
  {
    RecordedInside(loaded, applied, n, i);
    if n <= i {
      OneMore(loaded, history, i);
    }
  }

  /** Creating an empty history table changes no level. */
  lemma StartLevel(loaded: seq<Migration>, before: Option<History>, now: Option<History>, n: nat)
    requires InOrder(loaded) && n == LevelOf(loaded, before) && now.Some? && MatchingPrefix(loaded, now.value)
    requires now == if before.Some? then before else Some(map[])
    ensures IsPrefix(loaded, now.value, n) && LevelOf(loaded, now) == n
  {
    LevelIs(loaded, before, n);
    if before.None? {
      assert IsPrefix(loaded, map[], 0);
    }
    LevelIs(loaded, now, n);
  }

  lemma EmptyIsPrefix(loaded: seq<Migration>)
    ensures MatchingPrefix(loaded, map[])
  {
    assert IsPrefix(loaded, map[], 0);
  }

  /** Takes everything down, last first and once each, with the same guarantees; a complete run leaves no history. */
  method ApplyDownAll(db: Database, loaded: seq<Migration>) returns (ok: bool)
    requires db.Valid() && InOrder(loaded)
    modifies db
    ensures db.Valid() && db.faults >= old(db.faults) && old(db.log) <= db.log
    ensures old(Resumable(loaded, db.history)) ==>
              Resumable(loaded, db.history) && RanDown(loaded, old(db.history), old(db.log), db.history, db.log, ok)
    ensures !old(Resumable(loaded, db.history)) ==> !ok && db.history == old(db.history) && db.log == old(db.log)
    ensures ok ==> db.history.None? || db.history == Some(map[])
    ensures !ok && db.faults == old(db.faults) ==> !old(Resumable(loaded, db.history))
  {
    ghost var log0, n := db.log, LevelOf(loaded, db.history);
    ok := db.EnsureHistory();
    if !ok {
      return;
    }
    EmptyIsPrefix(loaded);
    ok := ValidateHistory(loaded, db.history.value);
    if !ok {
      return;
    }
    StartLevel(loaded, old(db.history), db.history, n);
    ghost var left;
    NothingDescended(loaded, db.history.value, n, db.log);
    ok, left := TakeAllDown(db, loaded, db.history.value, n);
    LevelIs(loaded, db.history, if left < n then left else n);
    if ok {
      DownToNothing(loaded, db.history, n);
    }
  }

  lemma NothingDescended(loaded: seq<Migration>, applied: History, n: nat, log: seq<Event>)
    requires IsPrefix(loaded, applied, n)
    ensures Descended(loaded, n, |loaded|, log, Some(applied), log)
  {
  }

  lemma DownToNothing(loaded: seq<Migration>, history: Option<History>, n: nat)
    requires if n == 0 then history.Some? && IsPrefix(loaded, history.value, 0) else history.None?
    ensures history.None? || history == Some(map[])
  {
    if n == 0 {
      assert forall v :: v !in history.value;
    }
  }

  /** The loop of a run down. */
  method TakeAllDown(db: Database, loaded: seq<Migration>, applied: History, ghost n: nat) returns (ok: bool, ghost left: nat)
    requires db.Valid() && InOrder(loaded) && IsPrefix(loaded, applied, n)
    requires Descended(loaded, n, |loaded|, db.log, db.history, db.log)
    modifies db
    ensures db.Valid() && db.faults >= old(db.faults)
    ensures left <= |loaded| && Descended(loaded, n, left, old(db.log), db.history, db.log)
    ensures ok ==> left == 0
    ensures !ok ==> db.faults > old(db.faults)
  {
    ghost var log0 := db.log;
    var i := |loaded|;
    ok := true;
    while ok && i > 0
      invariant 0 <= i <= |loaded| && db.Valid() && db.faults >= old(db.faults)
      invariant !ok ==> db.faults > old(db.faults)
      invariant Descended(loaded, n, i, log0, db.history, db.log)
      decreases ok, i
    {
      ok := TakeNext(db, loaded, applied, i - 1, n, log0);
      i := if ok then i - 1 else i;
    }
    left := i;
  }

  /** A run down with the first `i` migrations still to go through, of which `n` were applied before. */
  ghost predicate Descended(loaded: seq<Migration>, n: nat, i: nat, log0: seq<Event>, history: Option<History>, log: seq<Event>) {
    var m := if i < n then i else n;
    n <= |loaded| && log == log0 + Downs(loaded, n, m) &&
    if i > 0 || n == 0 then history.Some? && IsPrefix(loaded, history.value, m) else history.None?
  }

  method TakeNext(db: Database, loaded: seq<Migration>, applied: History, i: nat, ghost n: nat, ghost log0: seq<Event>) returns (ok: bool)
    requires db.Valid() && InOrder(loaded) && IsPrefix(loaded, applied, n) && i < |loaded|
    requires Descended(loaded, n, i + 1, log0, db.history, db.log)
    modifies db
    ensures db.Valid() && db.faults >= old(db.faults)
    ensures Descended(loaded, n, if ok then i else i + 1, log0, db.history, db.log)
    ensures !ok ==> db.faults > old(db.faults)
  {
    DescendStep(loaded, applied, n, i, log0, db.history.value, db.log);
    if loaded[i].version !in applied {
      return true;
    }
    ok := db.TakeDown(loaded[i], loaded[i].version == loaded[0].version);
  }

  lemma DescendStep(loaded: seq<Migration>, applied: History, n: nat, i: nat, log0: seq<Event>, history: History, log: seq<Event>)
    requires InOrder(loaded) && IsPrefix(loaded, applied, n) && i < |loaded|
    requires Descended(loaded, n, i + 1, log0, Some(history), log)
    ensures loaded[i].version !in applied ==> Descended(loaded, n, i, log0, Some(history), log)
    ensures loaded[i].version in applied ==>
              loaded[i].version in history && (loaded[i].version == loaded[0].version <==> i == 0) &&
              (i == 0 ==> history.Keys == {loaded[0].version}) &&
              Descended(loaded, n, i, log0, if i == 0 then None else Some(history - {loaded[i].version}), log + [Down(loaded[i].version)])
  {
    RecordedInside(loaded, applied, n, i);
    if i < n {
      DescendInto(loaded, n, i, log0, history, log);
    }
  }

  lemma DescendInto(loaded: seq<Migration>, n: nat, i: nat, log0: seq<Event>, history: History, log: seq<Event>)
    requires InOrder(loaded) && i < n <= |loaded|
    requires IsPrefix(loaded, history, i + 1) && log == log0 + Downs(loaded, n, i + 1)
    ensures loaded[i].version in history && (loaded[i].version == loaded[0].version <==> i == 0)
    ensures i == 0 ==> history.Keys == {loaded[0].version}
    ensures Descended(loaded, n, i, log0, if i == 0 then None else Some(history - {loaded[i].version}), log + [Down(loaded[i].version)])
  {
    OneLess(loaded, history, i);
    assert log + [Down(loaded[i].version)] == log0 + (Downs(loaded, n, i + 1) + [Down(loaded[i].version)]);
  }

  /** Runs in any order, each cut off wherever a transaction fails. */
  datatype Run = UpRun | DownRun

  /** What is left on record between the runs of a series. */
  datatype Mark = Mark(history: Option<History>, log: seq<Event>, faults: nat)

  /** A run does what runs up or down do, and fails only if there are no migrations or a transaction of its own fails. */
  ghost predicate Ran(loaded: seq<Migration>, run: Run, before: Mark, after: Mark, ok: bool) {
    before.faults <= after.faults && (!ok && (run == DownRun || loaded != []) ==> before.faults < after.faults) &&
    match run
    case UpRun => RanUp(loaded, before.history, before.log, after.history, after.log, ok)
    case DownRun => RanDown(loaded, before.history, before.log, after.history, after.log, ok)
  }

  /** Each run starts where the one before it stopped, and does what a run does. */
  ghost predicate IsSeries(loaded: seq<Migration>, runs: seq<Run>, results: seq<bool>, marks: seq<Mark>) {
    |results| == |runs| && |marks| == |runs| + 1 &&
    (forall i | 0 <= i < |marks| :: Resumable(loaded, marks[i].history)) &&
    forall i | 0 <= i < |runs| :: Ran(loaded, runs[i], marks[i], marks[i + 1], results[i])
  }

  lemma SeriesExtends(loaded: seq<Migration>, runs: seq<Run>, results: seq<bool>, marks: seq<Mark>, run: Run, ok: bool, mark: Mark)
    requires IsSeries(loaded, runs, results, marks) && Resumable(loaded, mark.history)
    requires Ran(loaded, run, marks[|runs|], mark, ok)
    ensures IsSeries(loaded, runs + [run], results + [ok], marks + [mark])
  {
    forall i | 0 <= i < |runs| + 1
      ensures Ran(loaded, (runs + [run])[i], (marks + [mark])[i], (marks + [mark])[i + 1], (results + [ok])[i])
    {
      if i < |runs| {
        assert Ran(loaded, runs[i], marks[i], marks[i + 1], results[i]);
      }
    }
  }

  method PerformRun(db: Database, loaded: seq<Migration>, run: Run) returns (ok: bool)
    requires db.Valid() && InOrder(loaded) && Resumable(loaded, db.history)
    modifies db
    ensures db.Valid() && db.faults >= old(db.faults) && old(db.log) <= db.log && Resumable(loaded, db.history)
    ensures Ran(loaded, run, Mark(old(db.history), old(db.log), old(db.faults)), Mark(db.history, db.log, db.faults), ok)
  {
    if run == UpRun {
      ok := ApplyUp(db, loaded);
    } else {
      ok := ApplyDownAll(db, loaded);
    }
  }

  /**
   Any series of runs keeps the history a matching prefix, so that the next run can resume where this one stopped. The log
   is exactly what the runs committed, level by level; over all of it no migration is applied twice without being taken
   down in between.
   */
  method RunSeries(db: Database, loaded: seq<Migration>, runs: seq<Run>) returns (results: seq<bool>, ghost marks: seq<Mark>)
    requires db.Valid() && InOrder(loaded) && Resumable(loaded, db.history)
    modifies db
    ensures db.Valid() && db.faults >= old(db.faults) && old(db.log) <= db.log && Alternates(db.log)
    ensures IsSeries(loaded, runs, results, marks)
    ensures marks[0] == Mark(old(db.history), old(db.log), old(db.faults)) && marks[|runs|] == Mark(db.history, db.log, db.faults)
    ensures db.faults == old(db.faults) && loaded != [] ==> forall i | 0 <= i < |runs| :: results[i]
  {
    results, marks := [], [Mark(db.history, db.log, db.faults)];
    for i := 0 to |runs|
      invariant db.Valid() && db.faults >= old(db.faults) && old(db.log) <= db.log
      invariant IsSeries(loaded, runs[..i], results, marks)
      invariant marks[0] == Mark(old(db.history), old(db.log), old(db.faults)) && marks[i] == Mark(db.history, db.log, db.faults)
      invariant db.faults == old(db.faults) && loaded != [] ==> forall k | 0 <= k < i :: results[k]
    {
      var ok := PerformRun(db, loaded, runs[i]);
      SeriesExtends(loaded, runs[..i], results, marks, runs[i], ok, Mark(db.history, db.log, db.faults));
      assert runs[..i + 1] == runs[..i] + [runs[i]];
      results, marks := results + [ok], marks + [Mark(db.history, db.log, db.faults)];
    }
    assert runs[..|runs|] == runs;
  }

  /** Whatever series of runs came before, one more run up completes unless a transaction of its own fails. */
  method CompleteAfter(db: Database, loaded: seq<Migration>, ghost runs: seq<Run>, ghost results: seq<bool>, ghost marks: seq<Mark>)
    returns (ok: bool)
    requires db.Valid() && InOrder(loaded) && loaded != []
    requires IsSeries(loaded, runs, results, marks) && marks[|runs|] == Mark(db.history, db.log, db.faults)
    modifies db
    ensures db.Valid() && old(db.log) <= db.log
    ensures ok ==> db.history.Some? && IsPrefix(loaded, db.history.value, |loaded|)
    ensures !ok ==> db.faults > old(db.faults)
  {
    ok := ApplyUp(db, loaded);
  }
}
