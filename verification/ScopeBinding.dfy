/**
 Binding an administrator to a scope, idempotently, by concurrent database transactions.

 Transactions run statement by statement, in any interleaving, each seeing what is committed. A statement that
 would insert or update a row another open transaction has written waits until that one ends. A transaction may
 fail at any point, and a commit may succeed without its caller learning of it.
 */
module ScopeBinding {
  import opened Digests

  datatype Key = Key(operation: string, actor: string, digest: string)

  datatype Scope = Scope(kind: string, id: string)

  datatype Binding = Binding(bindingId: string, admin: string, roleCode: string, scope: Scope, version: nat)

  /** One call: its idempotency key and request digest, the binding to make, the event to announce it with. */
  datatype Call = Call(key: Key, request: string, binding: Binding, eventId: string)

  datatype Row = Row(admin: string, role: string, scope: Scope)

  datatype Record = Pending(request: string) | Complete(request: string, response: Binding)

  datatype Database = Database(
    records: map<Key, Record>, bindings: map<string, Row>, versions: map<string, nat>, outbox: map<string, string>)

  datatype Failure = IdempotencyConflict | InProgress | RoleNotFound | BindingConflict | OtherFailure

  datatype Outcome = Returned(binding: Binding) | Refused(failure: Failure)

  datatype Phase =
    | Starting | Missed | Collided | Reserved | RoleFound(role: string) | Bound(role: string)
    | Versioned(role: string, version: nat) | Announced(role: string, version: nat) | Completed(role: string, version: nat)
    | Ended(outcome: Outcome)

  datatype Tx = Tx(call: Call, phase: Phase)

  /** A committed transaction. */
  datatype Entry = Entry(call: Call, role: string, version: nat)

  /** The committed database, the transactions by number, and the committed ones in order. */
  datatype State = State(db: Database, txs: map<nat, Tx>, log: seq<Entry>)

  // ---------------------------------------------------------------- what a transaction has written so far

  predicate HoldsEvent(p: Phase) { p.Announced? || p.Completed? }

  predicate HoldsVersion(p: Phase) { p.Versioned? || HoldsEvent(p) }

  predicate HoldsBinding(p: Phase) { p.Bound? || HoldsVersion(p) }

  predicate HoldsKey(p: Phase) { p.Reserved? || p.RoleFound? || HoldsBinding(p) }

  function RowOf(c: Call, role: string): Row {
    Row(c.binding.admin, role, c.binding.scope)
  }

  function Response(c: Call, version: nat): Binding {
    c.binding.(version := version)
  }

  function VersionOf(db: Database, admin: string): nat {
    if admin in db.versions then db.versions[admin] else 0
  }

  /** The primary key and the unique index over (administrator, role, scope). */
  predicate RowFree(db: Database, bindingId: string, row: Row) {
    bindingId !in db.bindings && forall id | id in db.bindings :: db.bindings[id] != row
  }

  function Apply(db: Database, e: Entry): Database {
    Database(db.records[e.call.key := Complete(e.call.request, Response(e.call, e.version))],
             db.bindings[e.call.binding.bindingId := RowOf(e.call, e.role)],
             db.versions[e.call.binding.admin := e.version],
             db.outbox[e.call.eventId := e.call.binding.bindingId])
  }

  // ---------------------------------------------------------------- steps

  datatype Action =
    | Begin(call: Call) | Load | Insert | Reload | FindRole(role: Option<string>) | InsertBinding | BumpVersion
    | Announce | Complete_ | Commit(acknowledged: bool) | Abort

  predicate KeyBusy(s: State, t: nat, key: Key) {
    exists u | u in s.txs :: u != t && HoldsKey(s.txs[u].phase) && s.txs[u].call.key == key
  }

  predicate RowBusy(s: State, t: nat, bindingId: string, row: Row) {
    exists u | u in s.txs :: u != t && HoldsBinding(s.txs[u].phase) &&
      (s.txs[u].call.binding.bindingId == bindingId || RowOf(s.txs[u].call, s.txs[u].phase.role) == row)
  }

  predicate VersionBusy(s: State, t: nat, admin: string) {
    exists u | u in s.txs :: u != t && HoldsVersion(s.txs[u].phase) && s.txs[u].call.binding.admin == admin
  }

  predicate EventBusy(s: State, t: nat, eventId: string) {
    exists u | u in s.txs :: u != t && HoldsEvent(s.txs[u].phase) && s.txs[u].call.eventId == eventId
  }

  /** What a committed record answers to a call with its key. */
  function Answer(r: Record, request: string): Outcome {
    if r.request != request then Refused(IdempotencyConflict)
    else if r.Pending? then Refused(InProgress)
    else Returned(r.response)
  }

  /** The phase an action leads to, if the action is possible and does not have to wait. */
  function NextPhase(s: State, t: nat, a: Action): Option<Phase>
    requires t in s.txs
  {
    var c, p, db := s.txs[t].call, s.txs[t].phase, s.db;
    match (a, p)
    case (Load, Starting) => Some(if c.key in db.records then Ended(Answer(db.records[c.key], c.request)) else Missed)
    case (Insert, Missed) =>
      if KeyBusy(s, t, c.key) then None else Some(if c.key in db.records then Collided else Reserved)
    case (Reload, Collided) =>
      Some(Ended(if c.key in db.records then Answer(db.records[c.key], c.request) else Refused(InProgress)))
    case (FindRole(role), Reserved) => Some(if role.Some? then RoleFound(role.value) else Ended(Refused(RoleNotFound)))
    case (InsertBinding, RoleFound(role)) =>
      if RowBusy(s, t, c.binding.bindingId, RowOf(c, role)) then None
      else Some(if RowFree(db, c.binding.bindingId, RowOf(c, role)) then Bound(role) else Ended(Refused(BindingConflict)))
    case (BumpVersion, Bound(role)) =>
      if VersionBusy(s, t, c.binding.admin) then None else Some(Versioned(role, VersionOf(db, c.binding.admin) + 1))
    case (Announce, Versioned(role, version)) =>
      if EventBusy(s, t, c.eventId) then None
      else Some(if c.eventId in db.outbox then Ended(Refused(OtherFailure)) else Announced(role, version))
    case (Complete_, Announced(role, version)) => Some(Completed(role, version))
    case (Commit(acknowledged), Completed(role, version)) =>
      Some(Ended(if acknowledged then Returned(Response(c, version)) else Refused(OtherFailure)))
    case (Abort, _) => if p.Ended? then None else Some(Ended(Refused(OtherFailure)))
    case _ => None
  }

  ghost predicate Step(s: State, t: nat, a: Action, s': State) {
    if a.Begin? then
      t !in s.txs && s' == s.(txs := s.txs[t := Tx(a.call, Starting)])
    else
      t in s.txs && NextPhase(s, t, a).Some? &&
      var tx := s.txs[t];
      var txs := s.txs[t := tx.(phase := NextPhase(s, t, a).value)];
      if a.Commit? then
        var e := Entry(tx.call, tx.phase.role, tx.phase.version);
        s' == State(Apply(s.db, e), txs, s.log + [e])
      else
        s' == s.(txs := txs)
  }

  ghost predicate IsRun(states: seq<State>, steps: seq<(nat, Action)>) {
    |states| == |steps| + 1 && forall i | 0 <= i < |steps| :: Step(states[i], steps[i].0, steps[i].1, states[i + 1])
  }

  ghost predicate Initial(s: State) {
    s.txs == map[] && s.log == [] && forall k | k in s.db.records :: s.db.records[k].Complete?
  }

  // ---------------------------------------------------------------- the invariant

  /** The database after the given commits. */
  function Replay(db: Database, log: seq<Entry>): Database {
    if log == [] then db else Apply(Replay(db, log[..|log| - 1]), log[|log| - 1])
  }

  /** Everything the entry writes was new when it was committed, and its version the next one. */
  predicate FreshIn(db: Database, e: Entry) {
    e.call.key !in db.records && RowFree(db, e.call.binding.bindingId, RowOf(e.call, e.role)) &&
    e.version == VersionOf(db, e.call.binding.admin) + 1 && e.call.eventId !in db.outbox
  }

  predicate LogFresh(db0: Database, log: seq<Entry>) {
    log == [] || (LogFresh(db0, log[..|log| - 1]) && FreshIn(Replay(db0, log[..|log| - 1]), log[|log| - 1]))
  }

  /** What an open transaction has written is new, and will be until it ends. */
  predicate WritesFresh(db: Database, tx: Tx) {
    (HoldsKey(tx.phase) ==> tx.call.key !in db.records) &&
    (HoldsBinding(tx.phase) ==> RowFree(db, tx.call.binding.bindingId, RowOf(tx.call, tx.phase.role))) &&
    (HoldsVersion(tx.phase) ==> tx.phase.version == VersionOf(db, tx.call.binding.admin) + 1) &&
    (HoldsEvent(tx.phase) ==> tx.call.eventId !in db.outbox)
  }

  /** Two open transactions never write the same row. */
  predicate Apart(a: Tx, b: Tx) {
    (HoldsKey(a.phase) && HoldsKey(b.phase) ==> a.call.key != b.call.key) &&
    (HoldsBinding(a.phase) && HoldsBinding(b.phase) ==>
       a.call.binding.bindingId != b.call.binding.bindingId && RowOf(a.call, a.phase.role) != RowOf(b.call, b.phase.role)) &&
    (HoldsVersion(a.phase) && HoldsVersion(b.phase) ==> a.call.binding.admin != b.call.binding.admin) &&
    (HoldsEvent(a.phase) && HoldsEvent(b.phase) ==> a.call.eventId != b.call.eventId)
  }

  /** A successful caller holds the committed answer to its key and request. */
  predicate AnswerStands(db: Database, tx: Tx) {
    tx.phase.Ended? && tx.phase.outcome.Returned? ==>
      tx.call.key in db.records && db.records[tx.call.key] == Complete(tx.call.request, tx.phase.outcome.binding)
  }

  ghost predicate AllSound(db: Database, txs: map<nat, Tx>) {
    forall t | t in txs :: WritesFresh(db, txs[t]) && AnswerStands(db, txs[t])
  }

  ghost predicate AllApart(txs: map<nat, Tx>) {
    forall t, u | t in txs && u in txs && t != u :: Apart(txs[t], txs[u])
  }

  ghost predicate Inv(db0: Database, s: State) {
    s.db == Replay(db0, s.log) && LogFresh(db0, s.log) &&
    (forall k | k in s.db.records :: s.db.records[k].Complete?) && AllSound(s.db, s.txs) && AllApart(s.txs)
  }

  lemma LogExtends(db0: Database, log: seq<Entry>, e: Entry)
    requires LogFresh(db0, log) && FreshIn(Replay(db0, log), e)
    ensures LogFresh(db0, log + [e]) && Replay(db0, log + [e]) == Apply(Replay(db0, log), e)
  {
    var more := log + [e];
    assert more[..|more| - 1] == log;
  }

  lemma OthersApart(txs: map<nat, Tx>, t: nat, moved: Tx)
    requires AllApart(txs) && forall u | u in txs && u != t :: Apart(moved, txs[u])
    ensures AllApart(txs[t := moved])
  {
    forall u | u in txs && u != t
      ensures Apart(txs[u], moved)
    {
      assert Apart(moved, txs[u]);
    }
  }

  /** A commit leaves every other transaction's writes fresh and every answer standing. */
  lemma CommitKeepsOthers(db: Database, tx: Tx, other: Tx)
    requires tx.phase.Completed? && WritesFresh(db, tx) && WritesFresh(db, other) && Apart(tx, other) && AnswerStands(db, other)
    ensures WritesFresh(Apply(db, Entry(tx.call, tx.phase.role, tx.phase.version)), other)
    ensures AnswerStands(Apply(db, Entry(tx.call, tx.phase.role, tx.phase.version)), other)
  {
  }

  /** A step that commits nothing moves one transaction; what it newly writes is fresh and nobody else's. */
  lemma MoveIsSafe(db0: Database, s: State, t: nat, a: Action)
    requires Inv(db0, s) && t in s.txs && !a.Commit? && NextPhase(s, t, a).Some?
    ensures var moved := s.txs[t].(phase := NextPhase(s, t, a).value);
            WritesFresh(s.db, moved) && AnswerStands(s.db, moved) && forall u | u in s.txs && u != t :: Apart(moved, s.txs[u])
  {
    var moved := s.txs[t].(phase := NextPhase(s, t, a).value);
    assert WritesFresh(s.db, s.txs[t]);
    MoveIsFresh(s, t, a);
    forall u | u in s.txs && u != t
      ensures Apart(moved, s.txs[u])
    {
      MoveIsApart(s, t, a, u);
    }
  }

  lemma MoveIsFresh(s: State, t: nat, a: Action)
    requires t in s.txs && !a.Commit? && NextPhase(s, t, a).Some? && WritesFresh(s.db, s.txs[t])
    requires forall k | k in s.db.records :: s.db.records[k].Complete?
    ensures WritesFresh(s.db, s.txs[t].(phase := NextPhase(s, t, a).value))
    ensures AnswerStands(s.db, s.txs[t].(phase := NextPhase(s, t, a).value))
  {
  }

  lemma MoveIsApart(s: State, t: nat, a: Action, u: nat)
    requires t in s.txs && u in s.txs && u != t && !a.Commit? && NextPhase(s, t, a).Some? && Apart(s.txs[t], s.txs[u])
    ensures Apart(s.txs[t].(phase := NextPhase(s, t, a).value), s.txs[u])
  {
  }

  lemma MovedKeepsInv(db0: Database, s: State, t: nat, moved: Tx)
    requires Inv(db0, s) && WritesFresh(s.db, moved) && AnswerStands(s.db, moved)
    requires forall u | u in s.txs && u != t :: Apart(moved, s.txs[u])
    ensures Inv(db0, s.(txs := s.txs[t := moved]))
  {
    OthersApart(s.txs, t, moved);
  }

  lemma CommittedKeepsInv(db0: Database, s: State, t: nat, outcome: Outcome)
    requires Inv(db0, s) && t in s.txs && s.txs[t].phase.Completed?
    requires outcome == Returned(Response(s.txs[t].call, s.txs[t].phase.version)) || outcome.Refused?
    ensures var e := Entry(s.txs[t].call, s.txs[t].phase.role, s.txs[t].phase.version);
            Inv(db0, State(Apply(s.db, e), s.txs[t := s.txs[t].(phase := Ended(outcome))], s.log + [e]))
  {
    var tx := s.txs[t];
    var ended := tx.(phase := Ended(outcome));
    var e := Entry(tx.call, tx.phase.role, tx.phase.version);
    assert WritesFresh(s.db, tx);
    LogExtends(db0, s.log, e);
    OthersApart(s.txs, t, ended);
    CommitKeepsSound(s.db, s.txs, t, ended);
  }

  lemma CommitKeepsSound(db: Database, txs: map<nat, Tx>, t: nat, ended: Tx)
    requires AllSound(db, txs) && AllApart(txs) && t in txs && txs[t].phase.Completed?
    requires ended.call == txs[t].call && ended.phase.Ended?
    requires ended.phase.outcome == Returned(Response(ended.call, txs[t].phase.version)) || ended.phase.outcome.Refused?
    ensures AllSound(Apply(db, Entry(txs[t].call, txs[t].phase.role, txs[t].phase.version)), txs[t := ended])
  {
    var tx := txs[t];
    var now := Apply(db, Entry(tx.call, tx.phase.role, tx.phase.version));
    forall u | u in txs && u != t
      ensures WritesFresh(now, txs[u]) && AnswerStands(now, txs[u])
    {
      assert Apart(tx, txs[u]);
      CommitKeepsOthers(db, tx, txs[u]);
    }
  }

  /** Every step keeps the invariant. */
  lemma StepKeepsInv(db0: Database, s: State, t: nat, a: Action, s': State)
    requires Inv(db0, s) && Step(s, t, a, s')
    ensures Inv(db0, s')
  {
    if a.Begin? {
      MovedKeepsInv(db0, s, t, Tx(a.call, Starting));
    } else if a.Commit? {
      CommittedKeepsInv(db0, s, t, NextPhase(s, t, a).value.outcome);
    } else {
      MoveIsSafe(db0, s, t, a);
      MovedKeepsInv(db0, s, t, s.txs[t].(phase := NextPhase(s, t, a).value));
    }
  }

  lemma {:induction false} InvHolds(states: seq<State>, steps: seq<(nat, Action)>, n: nat)
    requires IsRun(states, steps) && Initial(states[0]) && n < |states|
    ensures Inv(states[0].db, states[n])
  {
    if n > 0 {
      InvHolds(states, steps, n - 1);
      StepKeepsInv(states[0].db, states[n - 1], steps[n - 1].0, steps[n - 1].1, states[n]);
    }
  }

  // ---------------------------------------------------------------- what the invariant means

  /** Nothing committed is lost or changed, versions aside. */
  ghost predicate Keeps(a: Database, b: Database) {
    (forall k | k in a.records :: k in b.records && b.records[k] == a.records[k]) &&
    (forall e | e in a.outbox :: e in b.outbox && b.outbox[e] == a.outbox[e]) &&
    forall id | id in a.bindings :: id in b.bindings && b.bindings[id] == a.bindings[id]
  }

  lemma KeepsTransitive(a: Database, b: Database, c: Database)
    requires Keeps(a, b) && Keeps(b, c)
    ensures Keeps(a, c)
  {
  }

  lemma ApplyKeeps(db: Database, e: Entry)
    requires FreshIn(db, e)
    ensures Keeps(db, Apply(db, e))
  {
  }

  lemma {:induction false} ReplayKeeps(db: Database, log: seq<Entry>, n: nat)
    requires LogFresh(db, log) && n <= |log|
    ensures Keeps(Replay(db, log[..n]), Replay(db, log))
    decreases |log|
  {
    if n < |log| {
      var m := |log| - 1;
      ReplayKeeps(db, log[..m], n);
      assert log[..m][..n] == log[..n];
      ApplyKeeps(Replay(db, log[..m]), log[m]);
      KeepsTransitive(Replay(db, log[..n]), Replay(db, log[..m]), Replay(db, log));
    } else {
      assert log[..n] == log;
    }
  }

  lemma {:induction false} LogPrefix(db: Database, log: seq<Entry>, n: nat)
    requires LogFresh(db, log) && n <= |log|
    ensures LogFresh(db, log[..n])
    ensures n < |log| ==> FreshIn(Replay(db, log[..n]), log[n])
  {
    if n < |log| {
      var m := |log| - 1;
      assert log[..m][..n] == log[..n];
      LogPrefix(db, log[..m], n);
    } else {
      assert log[..n] == log;
    }
  }

  /** What one commit wrote is still there. */
  lemma EntryStands(db: Database, log: seq<Entry>, i: nat)
    requires LogFresh(db, log) && i < |log|
    ensures var e, now := log[i], Replay(db, log);
            e.call.key in now.records && now.records[e.call.key] == Complete(e.call.request, Response(e.call, e.version)) &&
            e.call.eventId in now.outbox && now.outbox[e.call.eventId] == e.call.binding.bindingId &&
            e.call.binding.bindingId in now.bindings && now.bindings[e.call.binding.bindingId] == RowOf(e.call, e.role)
  {
    ReplayKeeps(db, log, i + 1);
    assert log[..i + 1][..i] == log[..i];
  }

  /** At most one binding is ever committed per operation, actor and key; ids, rows and events are never shared either. */
  lemma OneCommitPerKey(db: Database, log: seq<Entry>, i: nat, j: nat)
    requires LogFresh(db, log) && i < j < |log|
    ensures log[i].call.key != log[j].call.key
    ensures log[i].call.binding.bindingId != log[j].call.binding.bindingId
    ensures RowOf(log[i].call, log[i].role) != RowOf(log[j].call, log[j].role)
    ensures log[i].call.eventId != log[j].call.eventId
  {
    LogPrefix(db, log, j);
    EntryStands(db, log[..j], i);
    assert log[..j][i] == log[i];
  }

  function CommitsFor(log: seq<Entry>, admin: string): nat {
    if log == [] then 0
    else CommitsFor(log[..|log| - 1], admin) + if log[|log| - 1].call.binding.admin == admin then 1 else 0
  }

  /** An administrator's version counts the bindings committed for it. */
  lemma {:induction false} VersionCounts(db: Database, log: seq<Entry>, admin: string)
    requires LogFresh(db, log)
    ensures VersionOf(Replay(db, log), admin) == VersionOf(db, admin) + CommitsFor(log, admin)
  {
    if log != [] {
      var n := |log| - 1;
      VersionCounts(db, log[..n], admin);
    }
  }

  /** Every commit adds exactly one event. */
  lemma {:induction false} OneEventEach(db: Database, log: seq<Entry>)
    requires LogFresh(db, log)
    ensures |Replay(db, log).outbox| == |db.outbox| + |log| && |Replay(db, log).bindings| == |db.bindings| + |log|
  {
    if log != [] {
      var n := |log| - 1;
      OneEventEach(db, log[..n]);
      OneMoreEvent(Replay(db, log[..n]), log[n]);
    }
  }

  lemma OneMoreEvent(db: Database, e: Entry)
    requires FreshIn(db, e)
    ensures |Apply(db, e).outbox| == |db.outbox| + 1 && |Apply(db, e).bindings| == |db.bindings| + 1
  {
  }

  /**
   In every reachable state: no committed record is pending; at most one binding is committed per key; two successful
   callers of one key made the same request and got the same binding; each administrator's version has grown by one per
   committed binding; and there is one event and one row per binding.
   */
  lemma BindingIsIdempotent(states: seq<State>, steps: seq<(nat, Action)>, n: nat)
    requires IsRun(states, steps) && Initial(states[0]) && n < |states|
    ensures forall k | k in states[n].db.records :: states[n].db.records[k].Complete?
    ensures forall i, j | 0 <= i < j < |states[n].log| :: states[n].log[i].call.key != states[n].log[j].call.key
    ensures forall t, u | t in states[n].txs && u in states[n].txs && states[n].txs[t].call.key == states[n].txs[u].call.key &&
                          Succeeded(states[n].txs[t]) && Succeeded(states[n].txs[u]) ::
              states[n].txs[t].phase.outcome == states[n].txs[u].phase.outcome &&
              states[n].txs[t].call.request == states[n].txs[u].call.request
    ensures forall admin :: VersionOf(states[n].db, admin) == VersionOf(states[0].db, admin) + CommitsFor(states[n].log, admin)
    ensures |states[n].db.outbox| == |states[0].db.outbox| + |states[n].log|
    ensures |states[n].db.bindings| == |states[0].db.bindings| + |states[n].log|
  {
    InvHolds(states, steps, n);
    var db, log := states[0].db, states[n].log;
    forall i, j | 0 <= i < j < |log|
      ensures log[i].call.key != log[j].call.key
    {
      OneCommitPerKey(db, log, i, j);
    }
    forall t, u | t in states[n].txs && u in states[n].txs && states[n].txs[t].call.key == states[n].txs[u].call.key &&
                  Succeeded(states[n].txs[t]) && Succeeded(states[n].txs[u])
      ensures states[n].txs[t].phase.outcome == states[n].txs[u].phase.outcome &&
              states[n].txs[t].call.request == states[n].txs[u].call.request
    {
      assert AnswerStands(states[n].db, states[n].txs[t]) && AnswerStands(states[n].db, states[n].txs[u]);
    }
    forall admin
      ensures VersionOf(states[n].db, admin) == VersionOf(db, admin) + CommitsFor(log, admin)
    {
      VersionCounts(db, log, admin);
    }
    OneEventEach(db, log);
  }

  /** An answer once given stands, so what is said of all transactions of a state is said of every caller so far. */
  lemma {:induction false} AnswerStays(states: seq<State>, steps: seq<(nat, Action)>, t: nat, i: nat, j: nat)
    requires IsRun(states, steps) && i <= j < |states| && t in states[i].txs
    ensures t in states[j].txs && states[j].txs[t].call == states[i].txs[t].call
    ensures states[i].txs[t].phase.Ended? ==> states[j].txs[t] == states[i].txs[t]
    decreases j
  {
    if i < j {
      AnswerStays(states, steps, t, i, j - 1);
      assert Step(states[j - 1], steps[j - 1].0, steps[j - 1].1, states[j]);
    }
  }

  predicate Succeeded(tx: Tx) {
    tx.phase.Ended? && tx.phase.outcome.Returned?
  }

  // ---------------------------------------------------------------- what a call comes to

  /** A run of t alone from one state to another. */
  ghost predicate RunAlone(s: State, t: nat, end: State, states: seq<State>, steps: seq<(nat, Action)>) {
    IsRun(states, steps) && states[0] == s && states[|steps|] == end && forall i | 0 <= i < |steps| :: steps[i].0 == t
  }

  lemma Then(s: State, t: nat, last: State, a: Action, end: State, states: seq<State>, steps: seq<(nat, Action)>)
    requires RunAlone(s, t, last, states, steps) && Step(last, t, a, end)
    ensures RunAlone(s, t, end, states + [end], steps + [(t, a)])
  {
  }

  /** The state in which t makes this call and has come as far as p. */
  function At(s: State, t: nat, call: Call, p: Phase): State {
    s.(txs := s.txs[t := Tx(call, p)])
  }

  lemma Moved(s: State, t: nat, call: Call, a: Action, p: Phase, q: Phase, states: seq<State>, steps: seq<(nat, Action)>)
    returns (more: seq<State>, taken: seq<(nat, Action)>)
    requires !a.Begin? && !a.Commit? && NextPhase(At(s, t, call, p), t, a) == Some(q)
    requires RunAlone(s, t, At(s, t, call, p), states, steps)
    ensures RunAlone(s, t, At(s, t, call, q), more, taken) && taken == steps + [(t, a)]
  {
    assert s.txs[t := Tx(call, p)][t := Tx(call, q)] == s.txs[t := Tx(call, q)];
    Then(s, t, At(s, t, call, p), a, At(s, t, call, q), states, steps);
    more, taken := states + [At(s, t, call, q)], steps + [(t, a)];
  }

  lemma Started(s: State, t: nat, call: Call) returns (states: seq<State>, steps: seq<(nat, Action)>)
    requires t !in s.txs
    ensures RunAlone(s, t, At(s, t, call, Starting), states, steps) && [(t, Begin(call))] <= steps && (t, Abort) !in steps
  {
    states, steps := [s, At(s, t, call, Starting)], [(t, Begin(call))];
  }

  /** A new key is reserved when no other transaction is open. */
  lemma KeyReserved(s: State, t: nat, call: Call) returns (states: seq<State>, steps: seq<(nat, Action)>)
    requires t !in s.txs && (forall u | u in s.txs :: s.txs[u].phase.Ended?) && call.key !in s.db.records
    ensures RunAlone(s, t, At(s, t, call, Reserved), states, steps) && [(t, Begin(call))] <= steps && (t, Abort) !in steps
  {
    states, steps := Started(s, t, call);
    states, steps := Moved(s, t, call, Load, Starting, Missed, states, steps);
    states, steps := Moved(s, t, call, Insert, Missed, Reserved, states, steps);
  }

  /** A free row is written, under the next version of its administrator. */
  lemma RowVersioned(s: State, t: nat, call: Call, role: string) returns (states: seq<State>, steps: seq<(nat, Action)>)
    requires t !in s.txs && (forall u | u in s.txs :: s.txs[u].phase.Ended?) && call.key !in s.db.records
    requires RowFree(s.db, call.binding.bindingId, Row(call.binding.admin, role, call.binding.scope))
    ensures [(t, Begin(call))] <= steps && (t, Abort) !in steps
    ensures RunAlone(s, t, At(s, t, call, Versioned(role, VersionOf(s.db, call.binding.admin) + 1)), states, steps)
  {
    states, steps := KeyReserved(s, t, call);
    states, steps := Moved(s, t, call, FindRole(Some(role)), Reserved, RoleFound(role), states, steps);
    states, steps := Moved(s, t, call, InsertBinding, RoleFound(role), Bound(role), states, steps);
    var v := VersionOf(s.db, call.binding.admin) + 1;
    states, steps := Moved(s, t, call, BumpVersion, Bound(role), Versioned(role, v), states, steps);
  }

  lemma Committed(s: State, t: nat, call: Call, role: string, v: nat, states: seq<State>, steps: seq<(nat, Action)>)
    returns (more: seq<State>, taken: seq<(nat, Action)>)
    requires RunAlone(s, t, At(s, t, call, Completed(role, v)), states, steps)
    ensures RunAlone(s, t, State(Apply(s.db, Entry(call, role, v)), s.txs[t := Tx(call, Ended(Returned(Response(call, v))))],
                                 s.log + [Entry(call, role, v)]), more, taken) && steps <= taken
  {
    var ended := Tx(call, Ended(Returned(Response(call, v))));
    var end := State(Apply(s.db, Entry(call, role, v)), s.txs[t := ended], s.log + [Entry(call, role, v)]);
    assert s.txs[t := Tx(call, Completed(role, v))][t := ended] == s.txs[t := ended];
    Then(s, t, At(s, t, call, Completed(role, v)), Commit(true), end, states, steps);
    more, taken := states + [end], steps + [(t, Commit(true))];
  }

  /** A call with a new key whose row and event are free, run with no other transaction open, makes its binding. */
  lemma FirstCallBinds(s: State, t: nat, call: Call, role: string)
    returns (states: seq<State>, steps: seq<(nat, Action)>)
    requires t !in s.txs && forall u | u in s.txs :: s.txs[u].phase.Ended?
    requires call.key !in s.db.records && call.eventId !in s.db.outbox && call.binding.bindingId !in s.db.bindings
    requires forall id | id in s.db.bindings :: s.db.bindings[id] != Row(call.binding.admin, role, call.binding.scope)
    ensures [(t, Begin(call))] <= steps
    ensures var b := call.binding;
            var bound := Binding(b.bindingId, b.admin, b.roleCode, b.scope,
                                 if b.admin in s.db.versions then s.db.versions[b.admin] + 1 else 1);
            RunAlone(s, t, State(Database(s.db.records[call.key := Complete(call.request, bound)],
                                          s.db.bindings[b.bindingId := Row(b.admin, role, b.scope)],
                                          s.db.versions[b.admin := bound.version],
                                          s.db.outbox[call.eventId := b.bindingId]),
                                 s.txs[t := Tx(call, Ended(Returned(bound)))],
                                 s.log + [Entry(call, role, bound.version)]), states, steps)
  {
    var v := VersionOf(s.db, call.binding.admin) + 1;
    states, steps := RowVersioned(s, t, call, role);
    states, steps := Moved(s, t, call, Announce, Versioned(role, v), Announced(role, v), states, steps);
    states, steps := Moved(s, t, call, Complete_, Announced(role, v), Completed(role, v), states, steps);
    states, steps := Committed(s, t, call, role, v, states, steps);
  }

  /** A later call with a recorded key is answered with the recorded binding or refused, and writes nothing. */
  lemma LaterCallAnswers(s: State, t: nat, call: Call, request: string, response: Binding)
    returns (states: seq<State>, steps: seq<(nat, Action)>)
    requires t !in s.txs && call.key in s.db.records && s.db.records[call.key] == Complete(request, response)
    ensures [(t, Begin(call))] <= steps
    ensures var answer := if call.request == request then Returned(response) else Refused(IdempotencyConflict);
            RunAlone(s, t, State(s.db, s.txs[t := Tx(call, Ended(answer))], s.log), states, steps)
  {
    states, steps := Started(s, t, call);
    var answer := if call.request == request then Returned(response) else Refused(IdempotencyConflict);
    states, steps := Moved(s, t, call, Load, Starting, Ended(answer), states, steps);
  }

  /** The same for a call that found no record before another one committed it. */
  lemma OvertakenCallAnswers(db0: Database, s: State, t: nat, call: Call, request: string, response: Binding)
    returns (states: seq<State>, steps: seq<(nat, Action)>)
    requires Inv(db0, s) && t in s.txs && s.txs[t] == Tx(call, Missed)
    requires call.key in s.db.records && s.db.records[call.key] == Complete(request, response)
    ensures var answer := if call.request == request then Returned(response) else Refused(IdempotencyConflict);
            RunAlone(s, t, State(s.db, s.txs[t := Tx(call, Ended(answer))], s.log), states, steps)
  {
    var answer := if call.request == request then Returned(response) else Refused(IdempotencyConflict);
    NotBusy(db0, s, t, call);
    states, steps := [s], [];
    states, steps := Moved(s, t, call, Insert, Missed, Collided, states, steps);
    states, steps := Moved(s, t, call, Reload, Collided, Ended(answer), states, steps);
  }

  /** Nobody holds a recorded key. */
  lemma NotBusy(db0: Database, s: State, t: nat, call: Call)
    requires Inv(db0, s) && t in s.txs && s.txs[t] == Tx(call, Missed) && call.key in s.db.records
    ensures s == At(s, t, call, Missed) && !KeyBusy(s, t, call.key)
  {
    assert s.txs == s.txs[t := Tx(call, Missed)];
    forall u | u in s.txs && HoldsKey(s.txs[u].phase)
      ensures s.txs[u].call.key != call.key
    {
      assert WritesFresh(s.db, s.txs[u]);
    }
  }

  /** A new key with an unknown role, a taken row or a used event is refused, and writes nothing. */
  lemma FirstCallRefused(s: State, t: nat, call: Call, role: Option<string>, taken: bool)
    returns (states: seq<State>, steps: seq<(nat, Action)>)
    requires t !in s.txs && (forall u | u in s.txs :: s.txs[u].phase.Ended?) && call.key !in s.db.records
    requires taken <==> call.binding.bindingId in s.db.bindings ||
                        exists id | id in s.db.bindings ::
                          role == Some(s.db.bindings[id].role) && s.db.bindings[id].admin == call.binding.admin &&
                          s.db.bindings[id].scope == call.binding.scope
    requires role.None? || taken || call.eventId in s.db.outbox
    ensures [(t, Begin(call))] <= steps && (t, Abort) !in steps
    ensures var failure := if role.None? then RoleNotFound else if taken then BindingConflict else OtherFailure;
            RunAlone(s, t, State(s.db, s.txs[t := Tx(call, Ended(Refused(failure)))], s.log), states, steps)
  {
    if role.None? {
      states, steps := KeyReserved(s, t, call);
      states, steps := Moved(s, t, call, FindRole(role), Reserved, Ended(Refused(RoleNotFound)), states, steps);
    } else if taken {
      states, steps := KeyReserved(s, t, call);
      states, steps := Moved(s, t, call, FindRole(role), Reserved, RoleFound(role.value), states, steps);
      states, steps := Moved(s, t, call, InsertBinding, RoleFound(role.value), Ended(Refused(BindingConflict)), states, steps);
    } else {
      var v := VersionOf(s.db, call.binding.admin) + 1;
      states, steps := RowVersioned(s, t, call, role.value);
      states, steps := Moved(s, t, call, Announce, Versioned(role.value, v), Ended(Refused(OtherFailure)), states, steps);
    }
  }

  // ---------------------------------------------------------------- no deadlock

  function Rank(p: Phase): nat {
    match p
    case Starting => 0
    case Missed => 1
    case Collided => 2
    case Reserved => 3
    case RoleFound(_) => 4
    case Bound(_) => 5
    case Versioned(_, _) => 6
    case Announced(_, _) => 7
    case Completed(_, _) => 8
    case Ended(_) => 9
  }

  function Open(s: State): set<nat> {
    set t | t in s.txs && !s.txs[t].phase.Ended?
  }

  /** No open transaction has come further than t. */
  predicate Leads(s: State, t: nat) {
    t in Open(s) && forall u | u in Open(s) :: Rank(s.txs[u].phase) <= Rank(s.txs[t].phase)
  }

  lemma {:induction false} SomeoneLeads(s: State, among: set<nat>) returns (t: nat)
    requires among <= Open(s) && among != {}
    ensures t in among && forall u | u in among :: Rank(s.txs[u].phase) <= Rank(s.txs[t].phase)
    decreases among
  {
    t :| t in among;
    if among != {t} {
      var other := SomeoneLeads(s, among - {t});
      if Rank(s.txs[other].phase) > Rank(s.txs[t].phase) { t := other; }
    }
  }

  /** What an open transaction does next when it does not give up. */
  function Ahead(p: Phase, role: Option<string>): Action
    requires !p.Ended?
  {
    match p
    case Starting => Load
    case Missed => Insert
    case Collided => Reload
    case Reserved => FindRole(role)
    case RoleFound(_) => InsertBinding
    case Bound(_) => BumpVersion
    case Versioned(_, _) => Announce
    case Announced(_, _) => Complete_
    case Completed(_, _) => Commit(true)
  }

  /** Locks are taken in one order, so the transaction that has come furthest waits for nobody. */
  lemma LeaderWaitsForNobody(s: State, t: nat, role: Option<string>)
    requires Leads(s, t)
    ensures var next := NextPhase(s, t, Ahead(s.txs[t].phase, role));
            next.Some? && Rank(next.value) > Rank(s.txs[t].phase)
  {
    assert forall u | u in s.txs && u != t && !s.txs[u].phase.Ended? :: u in Open(s);
  }

  lemma LeaderMoves(s: State, t: nat, role: Option<string>) returns (a: Action, next: State)
    requires Leads(s, t)
    ensures Step(s, t, a, next) && !a.Begin? && !a.Abort? && a != Commit(false)
    ensures next.txs.Keys == s.txs.Keys && Rank(next.txs[t].phase) > Rank(s.txs[t].phase)
    ensures forall u | u in s.txs && u != t :: next.txs[u] == s.txs[u]
  {
    LeaderWaitsForNobody(s, t, role);
    a := Ahead(s.txs[t].phase, role);
    var tx := s.txs[t];
    var txs := s.txs[t := tx.(phase := NextPhase(s, t, a).value)];
    if a.Commit? {
      var e := Entry(tx.call, tx.phase.role, tx.phase.version);
      next := State(Apply(s.db, e), txs, s.log + [e]);
    } else {
      next := s.(txs := txs);
    }
  }

  /** Calls that have nothing in common never wait for each other. */
  lemma ApartNeverWaits(s: State, t: nat, role: Option<string>)
    requires t in Open(s)
    requires forall u | u in Open(s) && u != t ::
               var c, d := s.txs[t].call, s.txs[u].call;
               c.key != d.key && c.binding.bindingId != d.binding.bindingId && c.binding.admin != d.binding.admin && c.eventId != d.eventId
    ensures NextPhase(s, t, Ahead(s.txs[t].phase, role)).Some?
  {
    assert forall u | u in s.txs && u != t && !s.txs[u].phase.Ended? :: u in Open(s);
  }

  /** Any open transaction can give up, which changes nothing but itself. */
  lemma MayGiveUp(s: State, t: nat)
    requires t in Open(s)
    ensures Step(s, t, Abort, s.(txs := s.txs[t := Tx(s.txs[t].call, Ended(Refused(OtherFailure)))]))
  {
  }

  /** A run that ends every open transaction, none of them giving up and none joining in. */
  ghost predicate EndsAll(s: State, states: seq<State>, steps: seq<(nat, Action)>) {
    IsRun(states, steps) && states[0] == s && states[|steps|].txs.Keys == s.txs.Keys &&
    (forall t | t in states[|steps|].txs :: states[|steps|].txs[t].phase.Ended?) &&
    forall i | 0 <= i < |steps| :: !steps[i].1.Begin? && !steps[i].1.Abort? && steps[i].1 != Commit(false)
  }

  lemma StepFirst(s: State, t: nat, a: Action, next: State, states: seq<State>, steps: seq<(nat, Action)>)
    requires Step(s, t, a, next) && !a.Begin? && !a.Abort? && a != Commit(false) && next.txs.Keys == s.txs.Keys
    requires EndsAll(next, states, steps)
    ensures EndsAll(s, [s] + states, [(t, a)] + steps)
  {
    var all, taken := [s] + states, [(t, a)] + steps;
    forall i | 0 <= i < |taken|
      ensures Step(all[i], taken[i].0, taken[i].1, all[i + 1])
    {
      assert i > 0 ==> all[i] == states[i - 1] && taken[i] == steps[i - 1];
    }
  }

  lemma StillOpen(s: State, t: nat, next: State)
    requires t in s.txs && next.txs.Keys == s.txs.Keys && forall u | u in s.txs && u != t :: next.txs[u] == s.txs[u]
    ensures Open(next) - {t} == Open(s) - {t}
  {
  }

  /** From any state, whatever has been interleaved so far, every open transaction can end without giving up. */
  lemma {:induction false} EveryoneCanEnd(s: State, role: Option<string>)
    returns (states: seq<State>, steps: seq<(nat, Action)>)
    ensures EndsAll(s, states, steps)
    decreases |Open(s)|, 9
  {
    if Open(s) == {} {
      assert forall t | t in s.txs && !s.txs[t].phase.Ended? :: t in Open(s);
      return [s], [];
    }
    var t := SomeoneLeads(s, Open(s));
    states, steps := LeaderEnds(s, t, role);
  }

  lemma {:induction false} LeaderEnds(s: State, t: nat, role: Option<string>)
    returns (states: seq<State>, steps: seq<(nat, Action)>)
    requires Leads(s, t)
    ensures EndsAll(s, states, steps)
    decreases |Open(s)|, 8 - Rank(s.txs[t].phase)
  {
    var a, next := LeaderMoves(s, t, role);
    StillOpen(s, t, next);
    if next.txs[t].phase.Ended? {
      assert Open(next) == Open(s) - {t};
      states, steps := EveryoneCanEnd(next, role);
    } else {
      assert Open(next) == Open(s);
      states, steps := LeaderEnds(next, t, role);
    }
    StepFirst(s, t, a, next, states, steps);
    states, steps := [s] + states, [(t, a)] + steps;
  }
}
