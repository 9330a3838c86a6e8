/** Which finding marks which engine, and what a run exits with, said of the findings themselves. */
module AcceptanceMeaning {
  import opened Acceptance
  import opened Wrappers

  const EVIDENCE_METRICS: set<string> :=
    {"Missing Source Coverage", "Missing Diff Coverage", "Missing Critical Path", "Coverage Count Overflow"}

  const MUTATION_METRICS: set<string> :=
    {"Mutation Unexecuted Mutants", "Mutation Timeouts", "Mutation Compile Errors", "Mutation Runner Errors",
     "Mutation Unviable Mutants"}

  /** A step that could not be started, or was not found, or never ended by itself. */
  predicate NeverRan(exit: Option<int>) {
    exit in {None, Some(126), Some(127)}
  }

  /** Some step of one of these names leaves its engine in this state. */
  ghost predicate StepShows(f: Findings, names: set<string>, state: EngineState) {
    exists i :: 0 <= i < |f.steps| && f.steps[i].step in names &&
                state == if NeverRan(f.steps[i].exit) then Incomplete else EngineState.Failed
  }

  ghost predicate MetricShows(metrics: seq<string>, missing: set<string>, state: EngineState) {
    exists i :: 0 <= i < |metrics| && state == if metrics[i] in missing then Incomplete else EngineState.Failed
  }

  const NAMED: set<string> :=
    {"clone-index", "read-clone-index", "coverage-report", "coverage-diff", "coverage-source-classification",
     "mutation-report", "mutation-scope", "generated-freshness", "legacy-ratchet", "format_check", "lint", "test",
     "typecheck"}

  /** Some step of any other name, which counts against the complexity engine. */
  ghost predicate OtherStepShows(f: Findings, state: EngineState) {
    exists i :: 0 <= i < |f.steps| && f.steps[i].step !in NAMED &&
                state == if NeverRan(f.steps[i].exit) then Incomplete else EngineState.Failed
  }

  /** The findings leave the engine in this state, as far as it depends on them. */
  ghost predicate Shows(f: Findings, id: EngineId, state: EngineState) {
    match id
    case FileBudgets => f.budgets > 0 && state.Failed?
    case Suppressions => f.suppressions > 0 && state.Failed?
    case Complexity => (f.complexities > 0 && state.Failed?) || OtherStepShows(f, state)
    case Invariants => f.invariants > 0 && state.Failed?
    case Clones => (f.clones > 0 && state.Failed?) || StepShows(f, {"clone-index", "read-clone-index"}, state)
    case Coverage =>
      MetricShows(f.coverage, EVIDENCE_METRICS, state) ||
      StepShows(f, {"coverage-report", "coverage-diff", "coverage-source-classification"}, state)
    case MutationReport =>
      MetricShows(f.mutation, MUTATION_METRICS, state) || StepShows(f, {"mutation-report", "mutation-scope"}, state)
    case GeneratedFreshness => StepShows(f, {"generated-freshness"}, state)
    case LegacyRatchet => StepShows(f, {"legacy-ratchet"}, state)
    case FormatCheck => StepShows(f, {"format_check"}, state)
    case Lint => (true in f.tools && state.Failed?) || StepShows(f, {"lint"}, state)
    case Tests => StepShows(f, {"test"}, state)
    case Typecheck => StepShows(f, {"typecheck"}, state)
  }

  lemma CountsTell(f: Findings, id: EngineId, state: EngineState)
    ensures Observation(id, state) in CountLog(f) <==>
            state.Failed? &&
            match id
            case FileBudgets => f.budgets > 0
            case Suppressions => f.suppressions > 0
            case Complexity => f.complexities > 0
            case Invariants => f.invariants > 0
            case Clones => f.clones > 0
            case Lint => true in f.tools
            case _ => false
  {
  }

  lemma MutationsTell(f: Findings, id: EngineId, state: EngineState)
    ensures Observation(id, state) in MutationLog(f.mutation) <==>
            id.MutationReport? && MetricShows(f.mutation, MUTATION_METRICS, state)
  {
    var log := MutationLog(f.mutation);
    if i :| 0 <= i < |log| && log[i] == Observation(id, state) {
      assert f.mutation[i] in MUTATION_METRICS <==> IncompleteMutation(f.mutation[i]);
    }
    if id.MutationReport? {
      if i :| 0 <= i < |f.mutation| && state == if f.mutation[i] in MUTATION_METRICS then Incomplete
                                                else EngineState.Failed {
        assert log[i] == Observation(id, state);
      }
    }
  }

  lemma CoveragesTell(f: Findings, id: EngineId, state: EngineState)
    ensures Observation(id, state) in CoverageLog(f.coverage) <==>
            id.Coverage? && MetricShows(f.coverage, EVIDENCE_METRICS, state)
  {
    var log := CoverageLog(f.coverage);
    if i :| 0 <= i < |log| && log[i] == Observation(id, state) {
      assert f.coverage[i] in EVIDENCE_METRICS <==> MissingCoverage(f.coverage[i]);
    }
    if id.Coverage? {
      if i :| 0 <= i < |f.coverage| && state == if f.coverage[i] in EVIDENCE_METRICS then Incomplete
                                                else EngineState.Failed {
        assert log[i] == Observation(id, state);
      }
    }
  }

  /** The step names of an engine. */
  function NamesOf(id: EngineId): set<string> {
    match id
    case Clones => {"clone-index", "read-clone-index"}
    case Coverage => {"coverage-report", "coverage-diff", "coverage-source-classification"}
    case MutationReport => {"mutation-report", "mutation-scope"}
    case GeneratedFreshness => {"generated-freshness"}
    case LegacyRatchet => {"legacy-ratchet"}
    case FormatCheck => {"format_check"}
    case Lint => {"lint"}
    case Tests => {"test"}
    case Typecheck => {"typecheck"}
    case _ => {}
  }

  lemma EngineOfStep(step: string, id: EngineId)
    ensures EvidenceEngine(step) == id <==> step in NamesOf(id) || (id.Complexity? && step !in NAMED)
  {
  }

  lemma NeverRanTells(step: Step)
    ensures NeverRan(step.exit) <==> NotRun(step)
  {
  }

  lemma StepsTell(f: Findings, id: EngineId, state: EngineState)
    ensures Observation(id, state) in StepLog(f.steps) <==>
            StepShows(f, NamesOf(id), state) || (id.Complexity? && OtherStepShows(f, state))
  {
    var log := StepLog(f.steps);
    forall i | 0 <= i < |f.steps|
      ensures log[i] == Observation(id, state) <==>
              (f.steps[i].step in NamesOf(id) || (id.Complexity? && f.steps[i].step !in NAMED)) &&
              state == if NeverRan(f.steps[i].exit) then Incomplete else EngineState.Failed
    {
      EngineOfStep(f.steps[i].step, id);
      NeverRanTells(f.steps[i]);
    }
    hide NamesOf, EvidenceEngine, NeverRan, NotRun;
    if Observation(id, state) in log {
      var i :| 0 <= i < |log| && log[i] == Observation(id, state);
    }
  }

  /** Finalizing observes of each engine what its findings show. */
  lemma FindingsTell(f: Findings, id: EngineId, state: EngineState)
    ensures Observation(id, state) in FinalLog(f) <==> Shows(f, id, state)
  {
    CountsTell(f, id, state);
    MutationsTell(f, id, state);
    CoveragesTell(f, id, state);
    StepsTell(f, id, state);
    hide CountLog, MutationLog, CoverageLog, StepLog, OtherStepShows, MetricShows, StepShows;
    NoNames(f, state);
  }

  lemma NoNames(f: Findings, state: EngineState)
    ensures !StepShows(f, {}, state)
  {
  }

  lemma WorstTells(states: States, log: seq<Observation>, id: EngineId)
    requires forall state :: Observation(id, state) in log ==> state.Failed? || state.Incomplete?
    ensures var was, after := id in states, After(states, log);
            if Observation(id, Incomplete) in log || (was && states[id].Incomplete?)
            then id in after && after[id].Incomplete?
            else if Observation(id, EngineState.Failed) in log || (was && states[id].Failed?)
            then id in after && after[id].Failed?
            else (id in after <==> was) && (was ==> after[id] == states[id])
  {
    StateIsMaximum(states, log, id);
    assert Seen(states, log, id, Incomplete) <==>
           Observation(id, Incomplete) in log || (id in states && states[id].Incomplete?);
    assert Seen(states, log, id, EngineState.Failed) <==>
           Observation(id, EngineState.Failed) in log || (id in states && states[id].Failed?);
    assert id in states ==> Seen(states, log, id, states[id]);
  }

  /** An engine ends incomplete exactly when something left it so, failed exactly when something failed it and
      nothing left it incomplete, and else as it was before. */
  lemma StatesTell(r: Report, id: EngineId)
    ensures var was, after := id in r.states, Finalized(r).states;
            if Shows(r.findings, id, Incomplete) || (was && r.states[id].Incomplete?)
            then id in after && after[id].Incomplete?
            else if Shows(r.findings, id, EngineState.Failed) || (was && r.states[id].Failed?)
            then id in after && after[id].Failed?
            else (id in after <==> was) && (was ==> after[id] == r.states[id])
  {
    forall state ensures Observation(id, state) in FinalLog(r.findings) <==> Shows(r.findings, id, state) {
      FindingsTell(r.findings, id, state);
    }
    ShownStates(r.findings, id);
    hide FinalLog, Shows;
    WorstTells(r.states, FinalLog(r.findings), id);
  }

  lemma ShownStates(f: Findings, id: EngineId)
    ensures forall state :: Shows(f, id, state) ==> state.Failed? || state.Incomplete?
  {
  }

  // ---------- the exit code ----------

  ghost predicate NoFinding(f: Findings) {
    && f.budgets == 0 && f.suppressions == 0 && f.complexities == 0 && f.invariants == 0 && f.clones == 0
    && f.coverage == [] && f.mutation == [] && f.steps == [] && true !in f.tools
  }

  ghost predicate SomethingMissing(f: Findings) {
    || (exists metric :: metric in f.mutation && metric in MUTATION_METRICS)
    || (exists metric :: metric in f.coverage && metric in EVIDENCE_METRICS)
    || (exists step :: step in f.steps && NeverRan(step.exit))
  }

  lemma MissingTells(f: Findings)
    ensures IncompleteEvidence(f) <==> SomethingMissing(f)
  {
    forall metric: string
      ensures metric in MUTATION_METRICS <==> IncompleteMutation(metric)
      ensures metric in EVIDENCE_METRICS <==> MissingCoverage(metric)
    {
    }
    forall step: Step ensures NeverRan(step.exit) <==> NotRun(step) {
    }
    hide IncompleteMutation, MissingCoverage, NotRun, NeverRan;
  }

  /** A finalized run passes exactly without any finding.  It exits with what was saved for it, if anything was;
      else with two when evidence is missing, with zero when nothing was found, and with one for all the rest. */
  lemma ExitTells(r: Report)
    ensures Finalized(r).passed <==> NoFinding(r.findings)
    ensures ExitCode(OutcomeOf(Finalized(r))) ==
            match r.saved
            case Some(Passed) => 0
            case Some(Violations) => 1
            case Some(OutcomeIncomplete) => 2
            case None => if SomethingMissing(r.findings) then 2 else if NoFinding(r.findings) then 0 else 1
  {
    MissingTells(r.findings);
  }

  /** A step that ended with 1 fails its engine and the run; one that was not found leaves both incomplete. */
  lemma StepExitsTell(name: string, exit: int, r: Report)
    requires r == Report(map[], map[], None, Findings(0, 0, 0, 0, 0, [], [], [Step(name, Some(exit))], []), false, None)
    ensures EvidenceEngine(name) in Finalized(r).states
    ensures exit == 1 ==>
              Finalized(r).states[EvidenceEngine(name)].Failed? && ExitCode(OutcomeOf(Finalized(r))) == 1
    ensures exit == 127 ==>
              Finalized(r).states[EvidenceEngine(name)].Incomplete? && ExitCode(OutcomeOf(Finalized(r))) == 2
  {
    var id, f := EvidenceEngine(name), r.findings;
    EngineOfStep(name, id);
    ExitTells(r);
    StatesTell(r, id);
    assert f.steps[0] == Step(name, Some(exit)) && f.steps[0] in f.steps;
    var state := if exit == 126 || exit == 127 then Incomplete else EngineState.Failed;
    assert Observation(id, state) == StepLog(f.steps)[0];
    FinalLogHas(f, Observation(id, state));
    FindingsTell(f, id, state);
    FindingsTell(f, id, Incomplete);
  }

  /** A loaded report keeps its verdict; it is refused when it passes with findings, and exits with two when it
      says that it is incomplete or an error. */
  lemma LoadingTells(r: Report, status: string)
    ensures Loaded(r, status).None? <==> r.passed && !NoFinding(r.findings)
    ensures Loaded(r, status).Some? ==>
              ExitCode(OutcomeOf(Loaded(r, status).value)) ==
              if SomethingMissing(r.findings) || (!r.passed && status in {"incomplete", "error"}) then 2
              else if r.passed then 0 else 1
  {
    MissingTells(r.findings);
  }

  /** A failed step counts against the engine that it feeds; a source that cannot be read or classified counts
      against all five source engines. */
  lemma EvidenceFailureTells(step: string, id: EngineId)
    ensures id in FailedEvidence(step) <==>
            if step == "read-source" || step == "classify-source"
            then id in {FileBudgets, Suppressions, Complexity, Invariants, EngineId.Clones}
            else step in NamesOf(id) || (id.Complexity? && step !in NAMED)
  {
    EngineOfStep(step, id);
    hide NamesOf, EvidenceEngine;
  }

  /** Each of these engines gets the step's reason, unless it was given one before. */
  lemma ReasonsTell(step: string, reasons: map<EngineId, string>, reason: string, id: EngineId)
    ensures var after := WithReasons(reasons, FailedEvidence(step), reason);
            && (id in after <==> id in reasons || id in FailedEvidence(step))
            && (id in after ==> after[id] == if id in reasons then reasons[id] else reason)
  {
    hide FailedEvidence;
  }

  lemma FailureLogTells(step: string, o: Observation)
    ensures o in AllIncomplete(FailedEvidence(step)) <==> o.id in FailedEvidence(step) && o.state.Incomplete?
  {
    var ids := FailedEvidence(step);
    if o.id in ids && o.state.Incomplete? {
      var i :| 0 <= i < |ids| && ids[i] == o.id;
      assert AllIncomplete(ids)[i] == o;
    }
  }

  /** Observing a failed step leaves the engines of the step incomplete and every other engine as it was. */
  lemma FailureStatesTell(states: States, step: string, id: EngineId)
    ensures var after := After(states, AllIncomplete(FailedEvidence(step)));
            if id in FailedEvidence(step) || (id in states && states[id].Incomplete?)
            then id in after && after[id].Incomplete?
            else (id in after <==> id in states) && (id in states ==> after[id] == states[id])
  {
    forall state ensures Observation(id, state) in AllIncomplete(FailedEvidence(step)) <==>
                         id in FailedEvidence(step) && state.Incomplete?
    {
      FailureLogTells(step, Observation(id, state));
    }
    hide FailedEvidence, AllIncomplete;
    WorstTells(states, AllIncomplete(FailedEvidence(step)), id);
  }

  /** An engine of the plan takes its state from the states when it is selected and was observed; it has a reason
      exactly when it is then incomplete, its own if one was given. */
  lemma PlanTells(e: Engine, states: States, reasons: map<EngineId, string>)
    ensures var r := ReconciledEngine(e, states, reasons);
            && r.id == e.id && r.enabled == e.enabled && r.selected == e.selected
            && (!e.selected || e.id !in states ==> r.state == e.state && r.reason == e.reason)
            && (e.selected && e.id in states ==> r.state == states[e.id] && (r.reason.Some? <==> r.state.Incomplete?))
            && (e.selected && e.id in states && r.state.Incomplete? ==>
                  r.reason.value == if e.id in reasons then reasons[e.id]
                                    else "required evidence could not be fully evaluated")
  {
  }
}
