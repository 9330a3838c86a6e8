/** How engine observations and findings become the verdict of a gate run. */
module Acceptance {
  import opened Wrappers

  datatype EngineId =
    | FileBudgets | Suppressions | Complexity | Invariants | Clones
    | Coverage | MutationReport | GeneratedFreshness | LegacyRatchet
    | FormatCheck | Lint | Tests | Typecheck

  datatype EngineState = Disabled | Skipped | Incomplete | Failed | Cached | Completed

  datatype Observation = Observation(id: EngineId, state: EngineState)

  type States = map<EngineId, EngineState>

  // ---------- observations ----------

  function Rank(state: EngineState): nat {
    match state
    case Disabled => 0
    case Skipped => 1
    case Cached => 2
    case Completed => 3
    case Failed => 4
    case Incomplete => 5
  }

  /** A later observation never hides a worse earlier one. */
  function Observed(states: States, o: Observation): States {
    if o.id in states && Rank(o.state) <= Rank(states[o.id]) then states else states[o.id := o.state]
  }

  function After(states: States, log: seq<Observation>): States
    decreases |log|
  {
    if log == [] then states else Observed(After(states, log[..|log| - 1]), log[|log| - 1])
  }

  lemma {:induction false} AfterConcat(states: States, a: seq<Observation>, b: seq<Observation>)
    ensures After(states, a + b) == After(After(states, a), b)
    decreases |b|
  {
    if b == [] {
      assert a + b == a;
    } else {
      var s := a + b;
      assert s[..|s| - 1] == a + b[..|b| - 1] && s[|s| - 1] == b[|b| - 1];
      AfterConcat(states, a, b[..|b| - 1]);
    }
  }

  predicate Seen(states: States, log: seq<Observation>, id: EngineId, state: EngineState) {
    (id in states && states[id] == state) || Observation(id, state) in log
  }

  /** An engine's state is the highest-ranked one ever observed for it. */
  lemma {:induction false} StateIsMaximum(states: States, log: seq<Observation>, id: EngineId)
    ensures id in After(states, log) <==> exists state :: Seen(states, log, id, state)
    ensures id in After(states, log) ==> Seen(states, log, id, After(states, log)[id])
    ensures id in After(states, log) ==> forall state :: Seen(states, log, id, state) ==>
              Rank(state) <= Rank(After(states, log)[id])
    decreases |log|
  {
    if log == [] {
      assert id in states ==> Seen(states, log, id, states[id]);
    } else {
      var before, last := log[..|log| - 1], log[|log| - 1];
      StateIsMaximum(states, before, id);
      assert log == before + [last];
      forall state
        ensures Seen(states, log, id, state) <==> Seen(states, before, id, state) || last == Observation(id, state) {
      }
      assert last.id == id ==> Seen(states, log, id, last.state);
    }
  }

  lemma SameRankSameState(a: EngineState, b: EngineState)
    requires Rank(a) == Rank(b)
    ensures a == b
  {
  }

  lemma SameStateAnyOrder(states: States, a: seq<Observation>, b: seq<Observation>, id: EngineId)
    requires forall o :: o in a <==> o in b
    ensures id in After(states, a) <==> id in After(states, b)
    ensures id in After(states, a) ==> After(states, a)[id] == After(states, b)[id]
  {
    StateIsMaximum(states, a, id);
    StateIsMaximum(states, b, id);
    forall state ensures Seen(states, a, id, state) <==> Seen(states, b, id, state) {
    }
    if id in After(states, a) {
      SameRankSameState(After(states, a)[id], After(states, b)[id]);
    }
  }

  /** The states depend only on which observations were made, neither on their order nor on how
      often each was made. */
  lemma OrderDoesNotMatter(states: States, a: seq<Observation>, b: seq<Observation>)
    requires forall o :: o in a <==> o in b
    ensures After(states, a) == After(states, b)
  {
    forall id: EngineId
      ensures id in After(states, a) <==> id in After(states, b)
      ensures id in After(states, a) ==> After(states, a)[id] == After(states, b)[id]
    {
      SameStateAnyOrder(states, a, b, id);
    }
  }

  lemma ObservingAgain(states: States, log: seq<Observation>)
    ensures After(After(states, log), log) == After(states, log)
  {
    AfterConcat(states, log, log);
    assert forall o :: o in log + log <==> o in log;
    OrderDoesNotMatter(states, log + log, log);
  }

  // ---------- the plan ----------

  datatype Engine = Engine(id: EngineId, enabled: bool, selected: bool, state: EngineState, reason: Option<string>)

  datatype Plan = Plan(command: string, mode: string, engines: seq<Engine>)

  predicate IsPartial(plan: Plan) {
    plan.command != "check" || plan.mode != "repository" ||
    exists i :: 0 <= i < |plan.engines| && plan.engines[i].enabled && !plan.engines[i].selected
  }

  predicate Finished(state: EngineState) {
    state.Completed? || state.Cached?
  }

  predicate IsComplete(plan: Plan) {
    !IsPartial(plan) &&
    forall i :: 0 <= i < |plan.engines| && plan.engines[i].selected ==> Finished(plan.engines[i].state)
  }

  const NOT_EVALUATED := "required evidence could not be fully evaluated"

  function ReconciledEngine(e: Engine, states: States, reasons: map<EngineId, string>): Engine {
    if !e.selected || e.id !in states then e
    else e.(state := states[e.id],
            reason := if !states[e.id].Incomplete? then None
                      else Some(if e.id in reasons then reasons[e.id] else NOT_EVALUATED))
  }

  function Reconciled(engines: seq<Engine>, states: States, reasons: map<EngineId, string>): (r: seq<Engine>)
    ensures |r| == |engines| && forall i :: 0 <= i < |r| ==> r[i] == ReconciledEngine(engines[i], states, reasons)
  {
    seq(|engines|, i requires 0 <= i < |engines| => ReconciledEngine(engines[i], states, reasons))
  }

  // ---------- the report ----------

  /** A failed external step and its exit code, if it ended with one. */
  datatype Step = Step(step: string, exit: Option<int>)

  /** Counts of the findings that have no effect beyond their number; the metric of each coverage
      and mutation finding; the failed steps; whether each tool diagnostic blocks. */
  datatype Findings = Findings(budgets: nat, suppressions: nat, complexities: nat, invariants: nat, clones: nat,
                               coverage: seq<string>, mutation: seq<string>, steps: seq<Step>, tools: seq<bool>)

  datatype Outcome = Passed | Violations | OutcomeIncomplete

  datatype Report = Report(states: States, reasons: map<EngineId, string>, execution: Option<Plan>, findings: Findings,
                           passed: bool, saved: Option<Outcome>)

  predicate MissingCoverage(metric: string) {
    metric in {"Missing Source Coverage", "Missing Diff Coverage", "Missing Critical Path", "Coverage Count Overflow"}
  }

  predicate IncompleteMutation(metric: string) {
    metric in {"Mutation Unexecuted Mutants", "Mutation Timeouts", "Mutation Compile Errors", "Mutation Runner Errors",
               "Mutation Unviable Mutants"}
  }

  predicate NotRun(step: Step) {
    step.exit.None? || step.exit.value == 126 || step.exit.value == 127
  }

  function EvidenceEngine(step: string): EngineId {
    if step == "clone-index" || step == "read-clone-index" then Clones
    else if step == "coverage-report" || step == "coverage-diff" || step == "coverage-source-classification"
    then Coverage
    else if step == "mutation-report" || step == "mutation-scope" then MutationReport
    else if step == "generated-freshness" then GeneratedFreshness
    else if step == "legacy-ratchet" then LegacyRatchet
    else if step == "format_check" then FormatCheck
    else if step == "lint" then Lint
    else if step == "test" then Tests
    else if step == "typecheck" then Typecheck
    else Complexity
  }

  function Blocking(tools: seq<bool>): (n: nat)
    ensures n <= |tools|
    ensures n == 0 <==> true !in tools
  {
    if tools == [] then 0 else (if tools[0] then 1 else 0) + Blocking(tools[1..])
  }

  function Total(f: Findings): nat {
    f.budgets + f.suppressions + f.complexities + f.invariants + f.clones + |f.coverage| + |f.mutation| + |f.steps| +
    Blocking(f.tools)
  }

  function CountMissing(metrics: seq<string>): (n: nat)
    ensures n <= |metrics|
    ensures n == 0 <==> forall i :: 0 <= i < |metrics| ==> !MissingCoverage(metrics[i])
  {
    if metrics == [] then 0 else (if MissingCoverage(metrics[0]) then 1 else 0) + CountMissing(metrics[1..])
  }

  function CountIncomplete(metrics: seq<string>): (n: nat)
    ensures n <= |metrics|
    ensures n == 0 <==> forall i :: 0 <= i < |metrics| ==> !IncompleteMutation(metrics[i])
  {
    if metrics == [] then 0 else (if IncompleteMutation(metrics[0]) then 1 else 0) + CountIncomplete(metrics[1..])
  }

  function Blockers(f: Findings): nat {
    |f.steps| + CountMissing(f.coverage) + CountIncomplete(f.mutation)
  }

  /** Never below zero. */
  function CodeFindings(f: Findings): (n: nat)
    ensures n + Blockers(f) == Total(f)
  {
    Total(f) - Blockers(f)
  }

  // ---------- the verdict ----------

  predicate IncompleteEvidence(f: Findings) {
    || (exists i :: 0 <= i < |f.mutation| && IncompleteMutation(f.mutation[i]))
    || (exists i :: 0 <= i < |f.steps| && NotRun(f.steps[i]))
    || (exists i :: 0 <= i < |f.coverage| && MissingCoverage(f.coverage[i]))
  }

  function OutcomeOf(r: Report): Outcome {
    if r.saved.Some? then r.saved.value
    else if IncompleteEvidence(r.findings) then OutcomeIncomplete
    else if r.passed then Passed
    else Violations
  }

  function ExitCode(outcome: Outcome): nat {
    match outcome
    case Passed => 0
    case Violations => 1
    case OutcomeIncomplete => 2
  }

  predicate Accepted(r: Report) {
    r.passed && r.execution.Some? && IsComplete(r.execution.value)
  }

  // ---------- finalizing ----------

  function MutationLog(metrics: seq<string>): (log: seq<Observation>)
    ensures |log| == |metrics|
    ensures forall i :: 0 <= i < |log| ==>
              log[i] == Observation(MutationReport, if IncompleteMutation(metrics[i]) then Incomplete else Failed)
  {
    seq(|metrics|, i requires 0 <= i < |metrics| =>
      Observation(MutationReport, if IncompleteMutation(metrics[i]) then Incomplete else Failed))
  }

  function StepLog(steps: seq<Step>): (log: seq<Observation>)
    ensures |log| == |steps|
    ensures forall i :: 0 <= i < |log| ==>
              log[i] == Observation(EvidenceEngine(steps[i].step), if NotRun(steps[i]) then Incomplete else Failed)
  {
    seq(|steps|, i requires 0 <= i < |steps| =>
      Observation(EvidenceEngine(steps[i].step), if NotRun(steps[i]) then Incomplete else Failed))
  }

  function CoverageLog(metrics: seq<string>): (log: seq<Observation>)
    ensures |log| == |metrics|
    ensures forall i :: 0 <= i < |log| ==>
              log[i] == Observation(Coverage, if MissingCoverage(metrics[i]) then Incomplete else Failed)
  {
    seq(|metrics|, i requires 0 <= i < |metrics| =>
      Observation(Coverage, if MissingCoverage(metrics[i]) then Incomplete else Failed))
  }

  function FailedIf(id: EngineId, count: nat): seq<Observation> {
    if count > 0 then [Observation(id, Failed)] else []
  }

  function CountLog(f: Findings): seq<Observation> {
    FailedIf(Lint, Blocking(f.tools)) + FailedIf(FileBudgets, f.budgets) + FailedIf(Suppressions, f.suppressions) +
    FailedIf(Complexity, f.complexities) + FailedIf(Invariants, f.invariants) + FailedIf(Clones, f.clones)
  }

  /** What finalizing observes: a failure for every kind of finding. */
  function FinalLog(f: Findings): seq<Observation> {
    CountLog(f) + MutationLog(f.mutation) + StepLog(f.steps) + CoverageLog(f.coverage)
  }

  function Finalized(r: Report): Report {
    var states := After(r.states, FinalLog(r.findings));
    Report(states, r.reasons,
           if r.execution.None? then None
           else Some(r.execution.value.(engines := Reconciled(r.execution.value.engines, states, r.reasons))),
           r.findings, Total(r.findings) == 0, r.saved)
  }

  class GateReport {
    var states: States
    var reasons: map<EngineId, string>
    var execution: Option<Plan>
    var findings: Findings
    var passed: bool
    var saved: Option<Outcome>

    ghost function Value(): Report
      reads this
    {
      Report(states, reasons, execution, findings, passed, saved)
    }

    method ObserveEngine(id: EngineId, state: EngineState)
      modifies this`states
      ensures states == Observed(old(states), Observation(id, state))
    {
      if id !in states {
        states := states[id := state];
      }
      if Rank(state) > Rank(states[id]) {
        states := states[id := state];
      }
    }

    method ObserveIncomplete(id: EngineId, message: string)
      modifies this`states, this`reasons
      ensures states == Observed(old(states), Observation(id, Incomplete))
      ensures reasons == if id in old(reasons) then old(reasons) else old(reasons)[id := message]
    {
      ObserveEngine(id, Incomplete);
      if id !in reasons {
        reasons := reasons[id := message];
      }
    }

    /** A source that cannot be read leaves every source engine incomplete; the first reason stays. */
    method ObserveEvidenceFailure(step: string, message: string)
      modifies this`states, this`reasons
      ensures states == After(old(states), AllIncomplete(FailedEvidence(step)))
      ensures reasons == WithReasons(old(reasons), FailedEvidence(step), step + ": " + message)
    {
      var ids := FailedEvidence(step);
      for i := 0 to |ids|
        invariant states == After(old(states), AllIncomplete(ids[..i]))
        invariant reasons == WithReasons(old(reasons), ids[..i], step + ": " + message)
      {
        OneMoreIncomplete(old(states), ids, i);
        OneMoreReason(old(reasons), ids, i, step + ": " + message);
        ObserveIncomplete(ids[i], step + ": " + message);
      }
      assert ids[..|ids|] == ids;
    }

    method ObserveAll(log: seq<Observation>)
      modifies this`states
      ensures states == After(old(states), log)
    {
      for i := 0 to |log|
        invariant states == After(old(states), log[..i])
      {
        assert log[..i + 1][..i] == log[..i];
        ObserveEngine(log[i].id, log[i].state);
      }
      assert log[..|log|] == log;
    }

    method ObserveCount(id: EngineId, count: nat)
      modifies this`states
      ensures states == After(old(states), FailedIf(id, count))
    {
      if count > 0 {
        ObserveEngine(id, Failed);
        assert [Observation(id, Failed)][..0] == [];
      }
    }

    method ObserveCounts()
      modifies this`states
      ensures states == After(old(states), CountLog(findings))
    {
      ghost var s := states;
      var f := findings;
      ObserveCount(Lint, Blocking(f.tools));
      ObserveCount(FileBudgets, f.budgets);
      AfterConcat(s, FailedIf(Lint, Blocking(f.tools)), FailedIf(FileBudgets, f.budgets));
      ghost var log := FailedIf(Lint, Blocking(f.tools)) + FailedIf(FileBudgets, f.budgets);
      ObserveCount(Suppressions, f.suppressions);
      AfterConcat(s, log, FailedIf(Suppressions, f.suppressions));
      log := log + FailedIf(Suppressions, f.suppressions);
      ObserveCount(Complexity, f.complexities);
      AfterConcat(s, log, FailedIf(Complexity, f.complexities));
      log := log + FailedIf(Complexity, f.complexities);
      ObserveCount(Invariants, f.invariants);
      AfterConcat(s, log, FailedIf(Invariants, f.invariants));
      log := log + FailedIf(Invariants, f.invariants);
      ObserveCount(Clones, f.clones);
      AfterConcat(s, log, FailedIf(Clones, f.clones));
    }

    method ObserveExecutionResults()
      modifies this`states
      ensures states == After(old(states), MutationLog(findings.mutation) + StepLog(findings.steps) +
                              CoverageLog(findings.coverage))
    {
      ghost var s := states;
      ObserveAll(MutationLog(findings.mutation));
      ObserveAll(StepLog(findings.steps));
      AfterConcat(s, MutationLog(findings.mutation), StepLog(findings.steps));
      ObserveAll(CoverageLog(findings.coverage));
      AfterConcat(s, MutationLog(findings.mutation) + StepLog(findings.steps), CoverageLog(findings.coverage));
    }

    method Reconcile()
      requires execution.Some?
      modifies this`execution
      ensures execution ==
              Some(old(execution).value.(engines := Reconciled(old(execution).value.engines, states, reasons)))
    {
      var engines := execution.value.engines;
      for i := 0 to |engines|
        invariant |engines| == |old(execution).value.engines|
        invariant forall k :: 0 <= k < i ==>
                    engines[k] == ReconciledEngine(old(execution).value.engines[k], states, reasons)
        invariant forall k :: i <= k < |engines| ==> engines[k] == old(execution).value.engines[k]
      {
        var e := engines[i];
        if e.selected && e.id in states {
          var state := states[e.id];
          var reason := if !state.Incomplete? then None
                        else Some(if e.id in reasons then reasons[e.id] else NOT_EVALUATED);
          engines := engines[i := e.(state := state, reason := reason)];
        }
      }
      assert engines == Reconciled(old(execution).value.engines, states, reasons);
      execution := Some(execution.value.(engines := engines));
    }

    method ObserveFindings()
      modifies this`states
      ensures states == After(old(states), FinalLog(findings))
    {
      ghost var s := states;
      ObserveCounts();
      ObserveExecutionResults();
      FinalLogSplits(s, findings);
    }

    method FinalizeExecution()
      modifies this`states, this`execution
      ensures Value() == Finalized(old(Value())).(passed := old(passed))
    {
      ObserveFindings();
      if execution.Some? {
        Reconcile();
      }
    }

    /** Freeze the verdict: the findings decide `passed`, and everything observed decides the engines. */
    method Finalize()
      modifies this
      ensures Value() == Finalized(old(Value()))
    {
      passed := Total(findings) == 0;
      FinalizeExecution();
    }
  }

  lemma FinalLogSplits(s: States, f: Findings)
    ensures After(s, FinalLog(f)) ==
            After(After(s, CountLog(f)), MutationLog(f.mutation) + StepLog(f.steps) + CoverageLog(f.coverage))
  {
    hide CountLog, MutationLog, StepLog, CoverageLog, Observed;
    var results := MutationLog(f.mutation) + StepLog(f.steps) + CoverageLog(f.coverage);
    AfterConcat(s, CountLog(f), results);
    assert CountLog(f) + results == FinalLog(f);
  }

  function AllIncomplete(ids: seq<EngineId>): (r: seq<Observation>)
    ensures |r| == |ids| && forall i :: 0 <= i < |r| ==> r[i] == Observation(ids[i], Incomplete)
  {
    seq(|ids|, i requires 0 <= i < |ids| => Observation(ids[i], Incomplete))
  }

  lemma OneMoreIncomplete(states: States, ids: seq<EngineId>, i: nat)
    requires i < |ids|
    ensures After(states, AllIncomplete(ids[..i + 1])) ==
            Observed(After(states, AllIncomplete(ids[..i])), Observation(ids[i], Incomplete))
  {
    assert AllIncomplete(ids[..i + 1])[..i] == AllIncomplete(ids[..i]);
  }

  lemma OneMoreReason(reasons: map<EngineId, string>, ids: seq<EngineId>, i: nat, reason: string)
    requires i < |ids|
    ensures var before := WithReasons(reasons, ids[..i], reason);
            WithReasons(reasons, ids[..i + 1], reason) == if ids[i] in before then before else before[ids[i] := reason]
  {
    assert ids[..i + 1][..i] == ids[..i];
  }

  /** An engine keeps the first reason that was given for it. */
  function WithReasons(reasons: map<EngineId, string>, ids: seq<EngineId>, reason: string): (r: map<EngineId, string>)
    ensures forall id :: id in r <==> id in reasons || id in ids
    ensures forall id :: id in r ==> r[id] == if id in reasons then reasons[id] else reason
  {
    if ids == [] then reasons
    else
      var before, last := WithReasons(reasons, ids[..|ids| - 1], reason), ids[|ids| - 1];
      assert forall id :: id in ids <==> id in ids[..|ids| - 1] || id == last;
      if last in before then before else before[last := reason]
  }

  function FailedEvidence(step: string): seq<EngineId> {
    if step == "read-source" || step == "classify-source"
    then [FileBudgets, Suppressions, Complexity, Invariants, Clones]
    else [EvidenceEngine(step)]
  }

  // ---------- what acceptance means ----------

  /** A fresh plan has evaluated nothing. */
  predicate Fresh(plan: Plan) {
    forall i :: 0 <= i < |plan.engines| ==> plan.engines[i].state.Skipped? || plan.engines[i].state.Disabled?
  }

  /** The engine was seen to finish and was never seen to fail or to stay incomplete. */
  predicate FinishedCleanly(log: seq<Observation>, id: EngineId) {
    && (Observation(id, Completed) in log || Observation(id, Cached) in log)
    && Observation(id, Failed) !in log && Observation(id, Incomplete) !in log
  }

  lemma NothingFinal(f: Findings)
    requires Total(f) == 0
    ensures FinalLog(f) == [] && !IncompleteEvidence(f)
  {
  }

  lemma EngineFinishedExactly(log: seq<Observation>, id: EngineId)
    ensures id in After(map[], log) && Finished(After(map[], log)[id]) <==> FinishedCleanly(log, id)
  {
    StateIsMaximum(map[], log, id);
    forall state ensures Seen(map[], log, id, state) <==> Observation(id, state) in log {
    }
  }

  lemma ReconciledFinishedExactly(e: Engine, log: seq<Observation>, reasons: map<EngineId, string>)
    requires e.selected && (e.state.Skipped? || e.state.Disabled?)
    ensures Finished(ReconciledEngine(e, After(map[], log), reasons).state) <==> FinishedCleanly(log, e.id)
  {
    EngineFinishedExactly(log, e.id);
  }

  /** Reconciling changes neither what is enabled nor what is selected. */
  lemma ReconcilingKeepsScope(plan: Plan, states: States, reasons: map<EngineId, string>)
    ensures IsPartial(plan.(engines := Reconciled(plan.engines, states, reasons))) <==> IsPartial(plan)
  {
  }

  lemma CompleteExactly(plan: Plan, log: seq<Observation>, reasons: map<EngineId, string>)
    requires Fresh(plan)
    ensures IsComplete(plan.(engines := Reconciled(plan.engines, After(map[], log), reasons))) <==>
            !IsPartial(plan) &&
            forall i :: 0 <= i < |plan.engines| && plan.engines[i].selected ==>
              FinishedCleanly(log, plan.engines[i].id)
  {
    var states := After(map[], log);
    var after := plan.(engines := Reconciled(plan.engines, states, reasons));
    ReconcilingKeepsScope(plan, states, reasons);
    forall i | 0 <= i < |plan.engines| && plan.engines[i].selected
      ensures after.engines[i].selected &&
              (Finished(after.engines[i].state) <==> FinishedCleanly(log, plan.engines[i].id))
    {
      ReconciledFinishedExactly(plan.engines[i], log, reasons);
    }
    forall i | 0 <= i < |plan.engines| ensures after.engines[i].selected == plan.engines[i].selected {
      assert after.engines[i] == ReconciledEngine(plan.engines[i], states, reasons);
    }
  }

  /** Whatever was observed before, in whatever order, a finalized run is accepted exactly when it
      has no finding, it checked the whole repository with nothing enabled left out, and each
      selected engine was seen to finish and never seen to fail or to stay incomplete. */
  lemma AcceptedExactly(r: Report, log: seq<Observation>)
    requires r.states == After(map[], log) && (r.execution.Some? ==> Fresh(r.execution.value))
    ensures Accepted(Finalized(r)) <==>
            && Total(r.findings) == 0 && r.execution.Some?
            && var plan := r.execution.value;
               && plan.command == "check" && plan.mode == "repository"
               && (forall i :: 0 <= i < |plan.engines| && plan.engines[i].enabled ==> plan.engines[i].selected)
               && (forall i :: 0 <= i < |plan.engines| && plan.engines[i].selected ==>
                   FinishedCleanly(log, plan.engines[i].id))
  {
    if r.execution.Some? && Total(r.findings) == 0 {
      NothingFinal(r.findings);
      CompleteExactly(r.execution.value, log, r.reasons);
    }
  }

  /** An accepted run exits with zero exactly when no other outcome was saved with its report. */
  lemma AcceptedExitsZeroExactly(r: Report)
    requires Accepted(Finalized(r))
    ensures ExitCode(OutcomeOf(Finalized(r))) == 0 <==> r.saved in {None, Some(Passed)}
  {
    NothingFinal(r.findings);
  }

  /** Without a saved outcome the exit code of a finalized run tells exactly whether it has
      findings and whether some evidence is missing. */
  lemma ExitCodeExactly(r: Report)
    requires r.saved == None
    ensures ExitCode(OutcomeOf(Finalized(r))) == 0 <==> Total(r.findings) == 0
    ensures ExitCode(OutcomeOf(Finalized(r))) == 2 <==> IncompleteEvidence(r.findings)
    ensures Accepted(Finalized(r)) ==> ExitCode(OutcomeOf(Finalized(r))) == 0
  {
    if Total(r.findings) == 0 {
      NothingFinal(r.findings);
    }
  }

  /** Loading a saved report: a passing verdict with findings is refused. */
  function Loaded(r: Report, status: string): Option<Report> {
    if r.passed && Total(r.findings) > 0 then None
    else
      var outcome := if !r.passed && (status == "incomplete" || status == "error") then OutcomeIncomplete
                     else OutcomeOf(r.(saved := None));
      Some(r.(saved := Some(outcome)))
  }

  /** A loaded report never claims acceptance beside a failing exit code, whatever the file says. */
  lemma LoadedAcceptanceExitsZero(r: Report, status: string)
    requires Loaded(r, status).Some? && Accepted(Loaded(r, status).value)
    ensures ExitCode(OutcomeOf(Loaded(r, status).value)) == 0 && Total(r.findings) == 0
  {
    NothingFinal(r.findings);
  }

  lemma FinalLogHas(f: Findings, o: Observation)
    requires o in MutationLog(f.mutation) || o in StepLog(f.steps) || o in CoverageLog(f.coverage)
    ensures o in FinalLog(f)
  {
  }

  lemma MissingEvidenceIsLogged(f: Findings) returns (id: EngineId)
    requires IncompleteEvidence(f)
    ensures Observation(id, Incomplete) in FinalLog(f)
  {
    if i :| 0 <= i < |f.mutation| && IncompleteMutation(f.mutation[i]) {
      id := MutationReport;
      assert MutationLog(f.mutation)[i] == Observation(id, Incomplete);
    } else if i :| 0 <= i < |f.steps| && NotRun(f.steps[i]) {
      id := EvidenceEngine(f.steps[i].step);
      assert StepLog(f.steps)[i] == Observation(id, Incomplete);
    } else {
      var i :| 0 <= i < |f.coverage| && MissingCoverage(f.coverage[i]);
      id := Coverage;
      assert CoverageLog(f.coverage)[i] == Observation(id, Incomplete);
    }
    FinalLogHas(f, Observation(id, Incomplete));
  }

  /** Missing evidence always shows as an incomplete engine, whatever else was observed for it. */
  lemma MissingEvidenceShows(r: Report) returns (id: EngineId)
    requires IncompleteEvidence(r.findings)
    ensures id in Finalized(r).states && Finalized(r).states[id] == Incomplete
  {
    id := MissingEvidenceIsLogged(r.findings);
    StateIsMaximum(r.states, FinalLog(r.findings), id);
    assert Seen(r.states, FinalLog(r.findings), id, Incomplete);
  }

  /** Finalizing twice is finalizing once. */
  lemma FinalizingAgain(r: Report)
    ensures Finalized(Finalized(r)) == Finalized(r)
  {
    ObservingAgain(r.states, FinalLog(r.findings));
    if r.execution.Some? {
      var once, twice := Finalized(r).execution.value.engines, Finalized(Finalized(r)).execution.value.engines;
      forall i | 0 <= i < |once| ensures twice[i] == once[i] {
      }
      assert twice == once;
    }
  }
}
