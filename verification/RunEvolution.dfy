/**
 A run's document and its evolution: the workflow builds the next document of a run from the last, and the assembly
 service decides whether the run may become that.

 Times are instants, compared exactly. `Step` lists hold each step at the place the last document gave it.
 */
module RunEvolution {
  import opened Digests

  datatype Status = Planned | Provisioning | Generating | Validating | Finished | Failed | RollingBack | RolledBack

  datatype StepStatus = StepPending | StepRunning | StepCompleted | StepFailed | StepCompensated | StepSkipped

  datatype Compensation = NotRequired | CompensationPending | CompensationCompleted | CompensationFailed

  datatype Step = Step(
    stepId: string, kind: string, status: StepStatus, attempt: int, compensation: Compensation,
    started: Option<int>, finished: Option<int>, diagnosticIds: seq<string>)

  datatype Run = Run(
    runId: string, rootRunId: string, retryOf: string, attemptNumber: int, planId: string, planSha: string, keyDigest: string,
    target: string, status: Status, steps: seq<Step>, createdAt: int, updatedAt: int, completedAt: Option<int>)

  /** What the workflow wants to happen next; `terminal` sets the completion time. */
  datatype Spec = Spec(
    status: Status, running: seq<string>, completed: seq<string>, failed: seq<string>, diagnosticIds: seq<string>, terminal: bool)

  // ---------------------------------------------------------------- the builder

  function NextStep(s: Step, now: int, spec: Spec): Step {
    if s.stepId in spec.running then
      if s.status == StepPending || s.status == StepFailed then
        s.(status := StepRunning, attempt := s.attempt + 1, started := Some(now))
      else s
    else if s.stepId in spec.completed then
      var begun := if s.status == StepPending then s.(attempt := s.attempt + 1, started := Some(now)) else s;
      begun.(status := StepCompleted, finished := Some(now))
    else if s.stepId in spec.failed then
      var begun := if s.status == StepPending then s.(attempt := s.attempt + 1, started := Some(now)) else s;
      begun.(status := StepFailed, diagnosticIds := spec.diagnosticIds, finished := Some(now))
    else s
  }

  function NextSteps(steps: seq<Step>, now: int, spec: Spec): (r: seq<Step>)
    ensures |r| == |steps| && forall i | 0 <= i < |r| :: r[i] == NextStep(steps[i], now, spec)
  {
    seq(|steps|, i requires 0 <= i < |steps| => NextStep(steps[i], now, spec))
  }

  function Later(a: int, b: int): int { if b > a then b else a }

  function NextRun(run: Run, now: int, spec: Spec): Run {
    var updated := Later(run.updatedAt, now);
    run.(status := spec.status, steps := NextSteps(run.steps, now, spec), updatedAt := updated,
         completedAt := if spec.terminal then Some(updated) else None)
  }

  /** Edits a copy of the step list in place. */
  method NextRunDocument(run: Run, now: int, spec: Spec) returns (next: Run)
    ensures next == NextRun(run, now, spec)
  {
    var steps := run.steps;
    for i := 0 to |steps|
      invariant |steps| == |run.steps|
      invariant forall k | 0 <= k < i :: steps[k] == NextStep(run.steps[k], now, spec)
      invariant forall k | i <= k < |steps| :: steps[k] == run.steps[k]
    {
      var step := steps[i];
      if step.stepId in spec.running {
        if step.status == StepPending || step.status == StepFailed {
          step := step.(status := StepRunning, attempt := step.attempt + 1, started := Some(now));
        }
      } else if step.stepId in spec.completed {
        if step.status == StepPending {
          step := step.(attempt := step.attempt + 1, started := Some(now));
        }
        step := step.(status := StepCompleted, finished := Some(now));
      } else if step.stepId in spec.failed {
        if step.status == StepPending {
          step := step.(attempt := step.attempt + 1, started := Some(now));
        }
        step := step.(status := StepFailed, diagnosticIds := spec.diagnosticIds, finished := Some(now));
      }
      steps := steps[i := step];
    }
    assert steps == NextSteps(run.steps, now, spec);
    var updated := Later(run.updatedAt, now);
    return run.(status := spec.status, steps := steps, updatedAt := updated,
                completedAt := if spec.terminal then Some(updated) else None);
  }

  predicate Begins(s: Step, spec: Spec) {
    if s.stepId in spec.running then s.status == StepPending || s.status == StepFailed
    else s.status == StepPending && (s.stepId in spec.completed || s.stepId in spec.failed)
  }

  /** The step list comes first: running over completed over failed. */
  predicate Ends(s: Step, spec: Spec) {
    s.stepId !in spec.running && (s.stepId in spec.completed || s.stepId in spec.failed)
  }

  /**
   What each field of a step becomes: begun steps count one attempt and start now, ended ones finish now, only failed
   ones take the diagnostics, and nothing else changes.
   */
  lemma StepBecomes(s: Step, now: int, spec: Spec)
    ensures var r := NextStep(s, now, spec);
            r.stepId == s.stepId && r.kind == s.kind && r.compensation == s.compensation &&
            r.attempt == (if Begins(s, spec) then s.attempt + 1 else s.attempt) &&
            r.started == (if Begins(s, spec) then Some(now) else s.started) &&
            r.finished == (if Ends(s, spec) then Some(now) else s.finished) &&
            r.diagnosticIds == (if Ends(s, spec) && s.stepId !in spec.completed then spec.diagnosticIds else s.diagnosticIds) &&
            r.status == if Ends(s, spec) then (if s.stepId in spec.completed then StepCompleted else StepFailed)
                        else if Begins(s, spec) then StepRunning
                        else s.status
  {
  }

  /** The document's own times: never earlier than before, never before now, and its completion is its last change. */
  lemma RunBecomes(run: Run, now: int, spec: Spec)
    ensures var r := NextRun(run, now, spec);
            r.updatedAt >= run.updatedAt && r.updatedAt >= now && (r.updatedAt == run.updatedAt || r.updatedAt == now) &&
            r.completedAt == (if spec.terminal then Some(r.updatedAt) else None) &&
            r.status == spec.status && r.runId == run.runId && r.rootRunId == run.rootRunId && r.retryOf == run.retryOf &&
            r.attemptNumber == run.attemptNumber && r.planId == run.planId && r.planSha == run.planSha &&
            r.keyDigest == run.keyDigest && r.target == run.target && r.createdAt == run.createdAt &&
            |r.steps| == |run.steps| && forall i | 0 <= i < |r.steps| :: r.steps[i] == NextStep(run.steps[i], now, spec)
  {
  }

  // ---------------------------------------------------------------- the evolution rule

  predicate ValidTransition(current: Status, next: Status) {
    (current == next && current != Finished && current != RolledBack) ||
    match current
    case Planned => next == Provisioning || next == Failed
    case Provisioning => next == Generating || next == Failed
    case Generating => next == Validating || next == Failed
    case Validating => next == Finished || next == Failed
    case Failed => next == Provisioning || next == RollingBack
    case RollingBack => next == RolledBack || next == Failed
    case _ => false
  }

  predicate ValidStepTransition(current: StepStatus, next: StepStatus) {
    if current == next then current != StepCompleted && current != StepCompensated && current != StepSkipped
    else
      match current
      case StepPending => next == StepRunning || next == StepCompleted || next == StepFailed || next == StepSkipped
      case StepRunning => next == StepCompleted || next == StepFailed
      case StepFailed => next == StepRunning || next == StepCompensated
      case StepCompleted => next == StepCompensated
      case _ => false
  }

  predicate ValidCompensation(current: Compensation, next: Compensation) {
    current == next ||
    match current
    case CompensationPending => next == CompensationCompleted || next == CompensationFailed
    case CompensationFailed => next == CompensationPending || next == CompensationCompleted
    case _ => false
  }

  predicate StableTime(current: Option<int>, next: Option<int>) {
    current.None? || next == current
  }

  predicate Ordered(started: Option<int>, finished: Option<int>) {
    started.Some? && finished.Some? ==> started.value <= finished.value
  }

  /** A step may become this, under some rule for its status. */
  predicate StepEvolves(before: Step, after: Step, rule: (StepStatus, StepStatus) -> bool) {
    before.stepId == after.stepId && before.kind == after.kind && before.attempt <= after.attempt &&
    rule(before.status, after.status) && StableTime(before.started, after.started) && StableTime(before.finished, after.finished) &&
    ValidCompensation(before.compensation, after.compensation) &&
    (after.status == StepPending || after.status == StepSkipped || after.attempt >= 1) && Ordered(after.started, after.finished)
  }

  predicate Terminal(s: Status) {
    s == Finished || s == Failed || s == RolledBack
  }

  /** A missing root run is the run itself, a missing attempt the first. */
  function Defaulted(r: Run): Run {
    r.(rootRunId := if r.rootRunId == "" then r.runId else r.rootRunId, attemptNumber := if r.attemptNumber == 0 then 1 else r.attemptNumber)
  }

  /** Everything but the steps. */
  predicate HeadEvolves(current: Run, next: Run) {
    current.status != Finished && current.status != RolledBack && next.runId == current.runId && next.planId == current.planId &&
    next.rootRunId == current.rootRunId && next.retryOf == current.retryOf && next.attemptNumber == current.attemptNumber &&
    next.planSha == current.planSha && next.keyDigest == current.keyDigest && next.target == current.target &&
    next.createdAt == current.createdAt && current.updatedAt <= next.updatedAt && ValidTransition(current.status, next.status) &&
    |next.steps| == |current.steps| && (Terminal(next.status) <==> next.completedAt.Some?)
  }

  predicate Evolves(current: Run, next: Run, rule: (StepStatus, StepStatus) -> bool) {
    HeadEvolves(Defaulted(current), Defaulted(next)) &&
    forall i | 0 <= i < |current.steps| :: StepEvolves(current.steps[i], next.steps[i], rule)
  }

  method ValidateRunEvolution(current: Run, next: Run) returns (ok: bool)
    ensures ok <==> Evolves(current, next, ValidStepTransition)
  {
    var root := if current.rootRunId == "" then current.runId else current.rootRunId;
    var attempt := if current.attemptNumber == 0 then 1 else current.attemptNumber;
    var nextRoot := if next.rootRunId == "" then next.runId else next.rootRunId;
    var nextAttempt := if next.attemptNumber == 0 then 1 else next.attemptNumber;
    if current.status == Finished || current.status == RolledBack || next.runId != current.runId || next.planId != current.planId ||
       nextRoot != root || next.retryOf != current.retryOf || nextAttempt != attempt || next.planSha != current.planSha ||
       next.keyDigest != current.keyDigest || next.target != current.target || next.createdAt != current.createdAt ||
       next.updatedAt < current.updatedAt || !ValidTransition(current.status, next.status) || |next.steps| != |current.steps| {
      return false;
    }
    var terminal := next.status == Finished || next.status == Failed || next.status == RolledBack;
    if terminal != next.completedAt.Some? {
      return false;
    }
    for i := 0 to |current.steps|
      invariant forall k | 0 <= k < i :: StepEvolves(current.steps[k], next.steps[k], ValidStepTransition)
    {
      var before, after := current.steps[i], next.steps[i];
      if before.stepId != after.stepId || before.kind != after.kind || after.attempt < before.attempt ||
         !ValidStepTransition(before.status, after.status) ||
         (before.started.Some? && after.started != before.started) || (before.finished.Some? && after.finished != before.finished) ||
         !ValidCompensation(before.compensation, after.compensation) ||
         (after.status != StepPending && after.status != StepSkipped && after.attempt < 1) ||
         (after.started.Some? && after.finished.Some? && after.finished.value < after.started.value) {
        return false;
      }
    }
    return true;
  }

  /** The legal edges, a status that stays aside. */
  lemma TransitionsExactly(a: Status, b: Status)
    ensures ValidTransition(a, b) <==>
            (a == b && a !in {Finished, RolledBack}) ||
            (a, b) in {(Planned, Provisioning), (Provisioning, Generating), (Generating, Validating), (Validating, Finished),
                       (Planned, Failed), (Provisioning, Failed), (Generating, Failed), (Validating, Failed),
                       (Failed, Provisioning), (Failed, RollingBack), (RollingBack, RolledBack), (RollingBack, Failed)}
  {
  }

  lemma StepTransitionsExactly(a: StepStatus, b: StepStatus)
    ensures ValidStepTransition(a, b) <==>
            (a == b && a in {StepPending, StepRunning, StepFailed}) ||
            (a, b) in {(StepPending, StepRunning), (StepPending, StepCompleted), (StepPending, StepFailed), (StepPending, StepSkipped),
                       (StepRunning, StepCompleted), (StepRunning, StepFailed), (StepFailed, StepRunning),
                       (StepFailed, StepCompensated), (StepCompleted, StepCompensated)}
  {
  }

  lemma CompensationsExactly(a: Compensation, b: Compensation)
    ensures ValidCompensation(a, b) <==>
            a == b || (a, b) in {(CompensationPending, CompensationCompleted), (CompensationPending, CompensationFailed),
                                 (CompensationFailed, CompensationPending), (CompensationFailed, CompensationCompleted)}
  {
  }

  // ---------------------------------------------------------------- what a chain of accepted documents keeps

  ghost predicate IsChain(runs: seq<Run>) {
    runs != [] && forall i | 0 < i < |runs| :: Evolves(runs[i - 1], runs[i], ValidStepTransition)
  }

  /** The same run, as far as it can be told apart from others. */
  predicate SameRun(a: Run, b: Run) {
    a.runId == b.runId && a.planId == b.planId && a.planSha == b.planSha && a.keyDigest == b.keyDigest && a.target == b.target &&
    a.retryOf == b.retryOf && a.createdAt == b.createdAt && |a.steps| == |b.steps| &&
    (if a.rootRunId == "" then a.runId else a.rootRunId) == (if b.rootRunId == "" then b.runId else b.rootRunId) &&
    (if a.attemptNumber == 0 then 1 else a.attemptNumber) == (if b.attemptNumber == 0 then 1 else b.attemptNumber)
  }

  /** The same step, later: attempts only grow, and a time once set stays. */
  predicate SameStep(a: Step, b: Step) {
    a.stepId == b.stepId && a.kind == b.kind && a.attempt <= b.attempt &&
    (a.started.Some? ==> b.started == a.started) && (a.finished.Some? ==> b.finished == a.finished) &&
    (a.compensation == NotRequired <==> b.compensation == NotRequired) &&
    (a.compensation == CompensationCompleted ==> b.compensation == CompensationCompleted)
  }

  /**
   Over any chain of accepted documents the run and its steps stay themselves and time does not go back; the last document
   is completed exactly if its status is terminal; and nothing follows a finished or rolled back run, nor one with a
   skipped or compensated step.
   */
  lemma {:induction false} ChainKeeps(runs: seq<Run>)
    requires IsChain(runs)
    ensures SameRun(runs[0], runs[|runs| - 1]) && runs[0].updatedAt <= runs[|runs| - 1].updatedAt
    ensures forall i | 0 <= i < |runs[0].steps| :: SameStep(runs[0].steps[i], runs[|runs| - 1].steps[i])
    ensures |runs| > 1 ==> (runs[|runs| - 1].completedAt.Some? <==> runs[|runs| - 1].status in {Finished, Failed, RolledBack}) &&
                           runs[0].status !in {Finished, RolledBack} &&
                           forall i | 0 <= i < |runs[0].steps| :: runs[0].steps[i].status !in {StepSkipped, StepCompensated}
  {
    var n := |runs| - 1;
    if n > 0 {
      ChainKeeps(runs[..n]);
      assert Evolves(runs[n - 1], runs[n], ValidStepTransition) && Evolves(runs[0], runs[1], ValidStepTransition);
      assert forall i | 0 <= i < |runs[0].steps| :: StepEvolves(runs[0].steps[i], runs[1].steps[i], ValidStepTransition);
      forall i | 0 <= i < |runs[0].steps|
        ensures SameStep(runs[0].steps[i], runs[n].steps[i])
      {
        assert SameStep(runs[..n][0].steps[i], runs[..n][n - 1].steps[i]);
        assert StepEvolves(runs[n - 1].steps[i], runs[n].steps[i], ValidStepTransition);
      }
    }
  }

  // ---------------------------------------------------------------- when a built document is accepted

  predicate NowOrUnset(t: Option<int>, now: int) {
    t.None? || t.value == now
  }

  predicate Touched(s: Step, spec: Spec) {
    s.stepId in spec.running || s.stepId in spec.completed || s.stepId in spec.failed
  }

  /** A step over which no decision is pending: completed, compensated or skipped. */
  predicate Closed(s: Step) {
    s.status == StepCompleted || s.status == StepCompensated || s.status == StepSkipped
  }

  /**
   What a step must be like for the builder's next step to be accepted: never closed; started at all unless still
   pending; and every time that is set again must be unset so far, or now.
   */
  predicate StepReady(s: Step, now: int, spec: Spec) {
    !Closed(s) &&
    if s.stepId in spec.running && (s.status == StepPending || s.status == StepFailed) then
      s.attempt >= 0 && NowOrUnset(s.started, now) && Ordered(Some(now), s.finished)
    else if s.stepId in spec.running || !Touched(s, spec) then
      (s.status == StepPending || s.attempt >= 1) && Ordered(s.started, s.finished)
    else if s.status == StepPending then
      s.attempt >= 0 && NowOrUnset(s.started, now) && NowOrUnset(s.finished, now)
    else
      (s.stepId in spec.completed ==> s.status == StepRunning) &&
      s.attempt >= 1 && NowOrUnset(s.finished, now) && Ordered(s.started, Some(now))
  }

  lemma StepExactly(s: Step, now: int, spec: Spec)
    ensures StepEvolves(s, NextStep(s, now, spec), ValidStepTransition) <==> StepReady(s, now, spec)
  {
  }

  /**
   The builder's document is accepted if and only if the run has not ended, the status edge is legal, `terminal` says
   whether the new status is one, and every step is ready.
   */
  lemma AcceptedExactly(run: Run, now: int, spec: Spec)
    ensures Evolves(run, NextRun(run, now, spec), ValidStepTransition) <==>
            run.status != Finished && run.status != RolledBack && ValidTransition(run.status, spec.status) &&
            (spec.terminal <==> Terminal(spec.status)) && forall i | 0 <= i < |run.steps| :: StepReady(run.steps[i], now, spec)
  {
    forall i | 0 <= i < |run.steps|
      ensures StepEvolves(run.steps[i], NextRun(run, now, spec).steps[i], ValidStepTransition) <==> StepReady(run.steps[i], now, spec)
    {
      StepExactly(run.steps[i], now, spec);
    }
  }

  /** Once any step is closed, no document the workflow can build is accepted any more. */
  lemma NothingAfterClosedStep(run: Run, i: nat, now: int, spec: Spec)
    requires i < |run.steps| && Closed(run.steps[i])
    ensures !Evolves(run, NextRun(run, now, spec), ValidStepTransition)
  {
    AcceptedExactly(run, now, spec);
    assert !StepReady(run.steps[i], now, spec);
  }

  /** A failed step can be run again only if it had never been started, or was started this very instant. */
  lemma NoSecondStart(run: Run, i: nat, now: int, spec: Spec)
    requires i < |run.steps| && run.steps[i].status == StepFailed && run.steps[i].stepId in spec.running
    ensures Evolves(run, NextRun(run, now, spec), ValidStepTransition) ==> NowOrUnset(run.steps[i].started, now)
  {
    AcceptedExactly(run, now, spec);
    assert StepReady(run.steps[i], now, spec) ==> NowOrUnset(run.steps[i].started, now);
  }

  // ---------------------------------------------------------------- the workflow's own documents

  function PendingStep(stepId: string, kind: string, compensation: Compensation): Step {
    Step(stepId, kind, StepPending, 0, compensation, None, None, [])
  }

  /** The steps of a new run, and of a retried one. */
  const NewSteps := [
    PendingStep("step.provision", "provision", CompensationPending), PendingStep("step.enable-capability", "enable_capability", CompensationPending),
    PendingStep("step.generate", "generate", CompensationPending), PendingStep("step.validate", "validate", NotRequired),
    PendingStep("step.commit", "commit", CompensationPending)]

  const StartProvisioning := Spec(Provisioning, ["step.provision"], [], [], [], false)
  const StartGeneration := Spec(Generating, ["step.generate"], ["step.provision", "step.enable-capability"], [], [], false)
  const StartValidation := Spec(Validating, ["step.validate"], ["step.generate"], [], [], false)
  const Complete := Spec(Finished, [], ["step.validate", "step.commit"], [], [], true)

  /** The four documents of an undisturbed execution, built one from the other. */
  function Provisioned(run: Run, t1: int): Run { NextRun(run, t1, StartProvisioning) }

  function Generated(run: Run, t1: int, t2: int): Run { NextRun(Provisioned(run, t1), t2, StartGeneration) }

  function Validated(run: Run, t1: int, t2: int, t3: int): Run { NextRun(Generated(run, t1, t2), t3, StartValidation) }

  function Completed(run: Run, t1: int, t2: int, t3: int, t4: int): Run { NextRun(Validated(run, t1, t2, t3), t4, Complete) }

  predicate NewRun(run: Run) {
    run.status == Planned && run.steps == NewSteps
  }

  lemma ProvisionedSteps(run: Run, t1: int)
    requires NewRun(run)
    ensures Provisioned(run, t1).steps ==
            [NewSteps[0].(status := StepRunning, attempt := 1, started := Some(t1)), NewSteps[1], NewSteps[2], NewSteps[3], NewSteps[4]]
  {
  }

  lemma GeneratedSteps(run: Run, t1: int, t2: int)
    requires NewRun(run)
    ensures Generated(run, t1, t2).steps ==
            [NewSteps[0].(status := StepCompleted, attempt := 1, started := Some(t1), finished := Some(t2)),
             NewSteps[1].(status := StepCompleted, attempt := 1, started := Some(t2), finished := Some(t2)),
             NewSteps[2].(status := StepRunning, attempt := 1, started := Some(t2)), NewSteps[3], NewSteps[4]]
  {
    ProvisionedSteps(run, t1);
  }

  /** A step not yet begun, or under way since before `now`. */
  predicate Open(s: Step, now: int) {
    s.finished.None? &&
    match s.status
    case StepPending => s.attempt == 0 && s.started.None?
    case StepRunning => s.attempt >= 1 && s.started.Some? && s.started.value <= now
    case _ => false
  }

  /** Such a step can be started, completed, failed or left alone. */
  lemma OpenIsReady(s: Step, now: int, spec: Spec)
    requires Open(s, now)
    ensures StepReady(s, now, spec)
  {
  }

  lemma ProvisioningAccepted(run: Run, t1: int)
    requires NewRun(run)
    ensures Evolves(run, Provisioned(run, t1), ValidStepTransition)
  {
    ProvisionedSteps(run, t1);
  }

  lemma ProvisionedOpen(run: Run, t1: int, t2: int, i: nat)
    requires NewRun(run) && t1 <= t2 && i < |Provisioned(run, t1).steps|
    ensures Open(Provisioned(run, t1).steps[i], t2)
  {
    ProvisionedSteps(run, t1);
  }

  lemma GenerationAccepted(run: Run, t1: int, t2: int)
    requires NewRun(run) && t1 <= t2
    ensures Evolves(Provisioned(run, t1), Generated(run, t1, t2), ValidStepTransition)
  {
    var begun := Provisioned(run, t1);
    forall i | 0 <= i < |begun.steps|
      ensures StepReady(begun.steps[i], t2, StartGeneration)
    {
      ProvisionedOpen(run, t1, t2, i);
      OpenIsReady(begun.steps[i], t2, StartGeneration);
    }
    AcceptedExactly(begun, t2, StartGeneration);
  }

  /** As the rule is written, an execution gets as far as the start of generation and can then neither go on nor be failed. */
  lemma WorkflowStopsAtGeneration(run: Run, t1: int, t2: int)
    requires NewRun(run) && t1 <= t2
    ensures Evolves(run, Provisioned(run, t1), ValidStepTransition)
    ensures Evolves(Provisioned(run, t1), Generated(run, t1, t2), ValidStepTransition)
    ensures forall now, spec :: !Evolves(Generated(run, t1, t2), NextRun(Generated(run, t1, t2), now, spec), ValidStepTransition)
  {
    ProvisioningAccepted(run, t1);
    GenerationAccepted(run, t1, t2);
    var stuck := Generated(run, t1, t2);
    assert Closed(stuck.steps[0]) by {
      GeneratedSteps(run, t1, t2);
    }
    forall now, spec
      ensures !Evolves(stuck, NextRun(stuck, now, spec), ValidStepTransition)
    {
      NothingAfterClosedStep(stuck, 0, now, spec);
    }
  }

  /** The rule the workflow would need: a closed step may also stay as it is. This is not the rule in force. */
  predicate OrUnchanged(current: StepStatus, next: StepStatus) {
    current == next || ValidStepTransition(current, next)
  }

  /** A closed step the next document does not mention. */
  predicate Settled(s: Step, spec: Spec) {
    Closed(s) && !Touched(s, spec) && (s.status == StepSkipped || s.attempt >= 1) && Ordered(s.started, s.finished)
  }

  /** Under the relaxed rule a settled step does no harm. */
  lemma AcceptedWhenRelaxed(run: Run, now: int, spec: Spec)
    requires run.status != Finished && run.status != RolledBack && ValidTransition(run.status, spec.status)
    requires spec.terminal <==> Terminal(spec.status)
    requires forall i | 0 <= i < |run.steps| :: StepReady(run.steps[i], now, spec) || Settled(run.steps[i], spec)
    ensures Evolves(run, NextRun(run, now, spec), OrUnchanged)
  {
    forall i | 0 <= i < |run.steps|
      ensures StepEvolves(run.steps[i], NextStep(run.steps[i], now, spec), OrUnchanged)
    {
      StepExactly(run.steps[i], now, spec);
    }
  }

  lemma ValidatedSteps(run: Run, t1: int, t2: int, t3: int)
    requires NewRun(run)
    ensures Validated(run, t1, t2, t3).steps ==
            [Generated(run, t1, t2).steps[0], Generated(run, t1, t2).steps[1],
             NewSteps[2].(status := StepCompleted, attempt := 1, started := Some(t2), finished := Some(t3)),
             NewSteps[3].(status := StepRunning, attempt := 1, started := Some(t3)), NewSteps[4]]
  {
    GeneratedSteps(run, t1, t2);
  }

  lemma CompletedSteps(run: Run, t1: int, t2: int, t3: int, t4: int)
    requires NewRun(run)
    ensures Completed(run, t1, t2, t3, t4).steps ==
            [Validated(run, t1, t2, t3).steps[0], Validated(run, t1, t2, t3).steps[1], Validated(run, t1, t2, t3).steps[2],
             NewSteps[3].(status := StepCompleted, attempt := 1, started := Some(t3), finished := Some(t4)),
             NewSteps[4].(status := StepCompleted, attempt := 1, started := Some(t4), finished := Some(t4))]
  {
    GeneratedSteps(run, t1, t2);
    ValidatedSteps(run, t1, t2, t3);
  }

  lemma ValidationRelaxed(run: Run, t1: int, t2: int, t3: int)
    requires NewRun(run) && t1 <= t2 <= t3
    ensures Evolves(Generated(run, t1, t2), Validated(run, t1, t2, t3), OrUnchanged)
  {
    GeneratedSteps(run, t1, t2);
    AcceptedWhenRelaxed(Generated(run, t1, t2), t3, StartValidation);
  }

  lemma CompletionRelaxed(run: Run, t1: int, t2: int, t3: int, t4: int)
    requires NewRun(run) && t1 <= t2 <= t3 <= t4
    ensures Evolves(Validated(run, t1, t2, t3), Completed(run, t1, t2, t3, t4), OrUnchanged)
  {
    GeneratedSteps(run, t1, t2);
    ValidatedSteps(run, t1, t2, t3);
    AcceptedWhenRelaxed(Validated(run, t1, t2, t3), t4, Complete);
  }

  /** Under the relaxed rule the whole chain to completion would be accepted. */
  lemma RelaxedChainCompletes(run: Run, t1: int, t2: int, t3: int, t4: int)
    requires NewRun(run) && t1 <= t2 <= t3 <= t4
    ensures Evolves(Generated(run, t1, t2), Validated(run, t1, t2, t3), OrUnchanged)
    ensures Evolves(Validated(run, t1, t2, t3), Completed(run, t1, t2, t3, t4), OrUnchanged)
    ensures Completed(run, t1, t2, t3, t4).status == Finished &&
            forall i | 0 <= i < 5 :: Completed(run, t1, t2, t3, t4).steps[i].status == StepCompleted
  {
    ValidationRelaxed(run, t1, t2, t3);
    CompletionRelaxed(run, t1, t2, t3, t4);
    GeneratedSteps(run, t1, t2);
    ValidatedSteps(run, t1, t2, t3);
    CompletedSteps(run, t1, t2, t3, t4);
  }
}
