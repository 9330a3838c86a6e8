/** What an attempt comes to when nobody disturbs it, and what a single disturbance can do. */
module EvidenceAlone {
  import opened EvidenceProtocol
  import opened EvidenceHistory
  import opened Wrappers

  /** What the producer yields: its execution and its report; and what the pending file holds, which
      is the report unless somebody replaced it. */
  datatype Yield = Yield(execution: Execution, report: Text, held: Text)

  /** The producer completed and what the pending file holds is a valid report. */
  predicate Sound(site: Site, y: Yield, inputs: Snapshot) {
    && inputs != map[] && Completed(y.execution)
    && site.valid(y.execution.producer, y.execution.partition, y.held, inputs)
  }

  /** The state of an undisturbed attempt after each step. */
  ghost predicate Quiet(site: Site, j: Job, y: Yield, s: World, stage: nat) {
    && j in s.attempts
    && var a := s.attempts[j];
    && a.fate == Running && a.stage == stage <= COMMITTED
    && (stage >= CAPTURED ==> a.before == s.inputs)
    && (JOB_CREATED <= stage < JOB_REMOVED ==> j in s.jobs && s.jobs[j] == s.inputs)
    && (stage >= EXECUTED ==> a.execution == Some(y.execution))
    && (stage >= PENDING_WRITTEN ==> a.produced == Some(y.report))
    && (PENDING_WRITTEN <= stage < REPORT_MOVED ==> s.pending == Some(y.held))
    && (stage >= SEALED ==>
          a.receipt == Some(Receipt(2, site.root, y.execution, s.inputs, Sha256(y.held), true, Some(j))))
    && (stage >= REPORT_MOVED ==> s.report == Some(y.held))
    && (stage >= RECEIPT_WRITTEN ==> s.receipt == Some(Sealed(a.receipt.value)))
    && (REVOKED <= stage < SLOT_CREATED ==> s.slot == None)
    && (stage == SLOT_CREATED ==> s.slot == Some(Slot(j, None)))
    && (stage >= SLOT_WRITTEN ==> s.slot == Some(Slot(j, Some(RecordOf(a)))))
    && (stage >= JOB_REMOVED ==> j !in s.jobs)
  }

  /** The next step of an undisturbed attempt. */
  function QuietNext(site: Site, j: Job, y: Yield, s: World): World
    requires j in s.attempts
  {
    var a := s.attempts[j];
    var next := a.(stage := a.stage + 1);
    var t := Reached(s, j, next);
    if a.stage == STARTED then t.(slot := None)
    else if a.stage == REVOKED then t.(receipt := None)
    else if a.stage == RECEIPT_REMOVED then Reached(s, j, next.(before := s.inputs))
    else if a.stage == CAPTURED then t.(jobs := s.jobs[j := s.inputs])
    else if a.stage == RESTORED then Reached(s, j, next.(execution := Some(y.execution)))
    else if a.stage == PUBLISHING then Reached(s, j, next.(produced := Some(y.report))).(pending := Some(y.report))
    else if a.stage == VALIDATED && a.execution.Some?
    then Reached(s, j, next.(receipt := Some(Seal(site, j, a, y.held))))
    else if a.stage == INPUTS_CHECKED then t.(report := s.pending, pending := None)
    else if a.receipt == None then t
    else if a.stage == REPORT_MOVED then t.(receipt := Some(Sealed(a.receipt.value)))
    else if a.stage == INPUTS_RECHECKED then t.(records := s.records[RecordOf(a) := None])
    else if a.stage == RECORD_CREATED then t.(records := s.records[RecordOf(a) := Some(RecordOf(a).text)])
    else if a.stage == RECORD_WRITTEN then t.(slot := Some(Slot(j, None)))
    else if a.stage == SLOT_CREATED then t.(slot := WrittenSlot(s.slot, j, RecordOf(a)))
    else if a.stage == SELF_VERIFIED then t.(jobs := s.jobs - {j})
    else t
  }

  /** Everything that the next quiet step needs. */
  ghost predicate Ready(site: Site, j: Job, y: Yield, s: World) {
    && Inv(site, s) && j in s.attempts && Quiet(site, j, y, s, s.attempts[j].stage)
    && Sound(site, y, s.inputs)
    && (s.attempts[j].stage < PENDING_WRITTEN ==> y.held == y.report)
  }

  /** The registry as the attempt's own steps find it. */
  lemma RegistryAllows(site: Site, j: Job, y: Yield, s: World)
    requires Ready(site, j, y, s)
    ensures var a := s.attempts[j];
            && (a.stage == INPUTS_RECHECKED ==> a.receipt.Some? && RecordOf(a) !in s.records)
            && (a.stage == SLOT_READ ==>
                  a.receipt.Some? && RecordOf(a) in s.records && s.records[RecordOf(a)] == Some(RecordOf(a).text))
  {
    var a := s.attempts[j];
    assert AttemptInv(site, j, a) && Kept(s, a);
    if a.stage >= SEALED {
      assert RecordOf(a) in s.records ==> Owned(s, RecordOf(a));
    }
  }

  lemma QuietAdvances(site: Site, j: Job, y: Yield, s: World)
    requires Ready(site, j, y, s) && s.attempts[j].stage < COMMITTED
    ensures Advance(s, site, j, QuietNext(site, j, y, s))
    ensures QuietNext(site, j, y, s).inputs == s.inputs
  {
    RegistryAllows(site, j, y, s);
    hide Inv;
    if s.attempts[j].stage < EXECUTED {
      QuietPrepares(site, j, y, s);
    } else if s.attempts[j].stage < REPORT_MOVED {
      QuietPublishes(site, j, y, s);
    } else {
      QuietCertifies(site, j, y, s);
    }
  }

  lemma QuietPrepares(site: Site, j: Job, y: Yield, s: World)
    requires Ready(site, j, y, s) && s.attempts[j].stage < EXECUTED
    ensures Advance(s, site, j, QuietNext(site, j, y, s))
    ensures QuietNext(site, j, y, s).inputs == s.inputs
  {
    hide Inv, Publishes, Checks, Certifies, Seal;
  }

  lemma QuietPublishes(site: Site, j: Job, y: Yield, s: World)
    requires Ready(site, j, y, s) && EXECUTED <= s.attempts[j].stage < REPORT_MOVED
    ensures Advance(s, site, j, QuietNext(site, j, y, s))
    ensures QuietNext(site, j, y, s).inputs == s.inputs
  {
    hide Inv, Prepares, Checks, Certifies;
  }

  lemma QuietCertifies(site: Site, j: Job, y: Yield, s: World)
    requires Ready(site, j, y, s) && REPORT_MOVED <= s.attempts[j].stage < COMMITTED
    requires var a := s.attempts[j];
             && (a.stage == INPUTS_RECHECKED ==> a.receipt.Some? && RecordOf(a) !in s.records)
             && (a.stage == SLOT_READ ==>
                   a.receipt.Some? && RecordOf(a) in s.records && s.records[RecordOf(a)] == Some(RecordOf(a).text))
    ensures Advance(s, site, j, QuietNext(site, j, y, s))
    ensures QuietNext(site, j, y, s).inputs == s.inputs
  {
    hide Inv, Prepares, Publishes, Seal;
  }

  lemma PreparingStaysQuiet(site: Site, j: Job, y: Yield, s: World)
    requires j in s.attempts && Quiet(site, j, y, s, s.attempts[j].stage) && s.attempts[j].stage < EXECUTED
    requires s.attempts[j].stage < PENDING_WRITTEN ==> y.held == y.report
    ensures Quiet(site, j, y, QuietNext(site, j, y, s), s.attempts[j].stage + 1)
  {
  }

  lemma PublishingStaysQuiet(site: Site, j: Job, y: Yield, s: World)
    requires j in s.attempts && Quiet(site, j, y, s, s.attempts[j].stage) &&
             EXECUTED <= s.attempts[j].stage < REPORT_MOVED
    requires s.attempts[j].stage < PENDING_WRITTEN ==> y.held == y.report
    ensures Quiet(site, j, y, QuietNext(site, j, y, s), s.attempts[j].stage + 1)
  {
  }

  lemma CertifyingStaysQuiet(site: Site, j: Job, y: Yield, s: World)
    requires j in s.attempts && Quiet(site, j, y, s, s.attempts[j].stage) &&
             REPORT_MOVED <= s.attempts[j].stage < COMMITTED
    requires s.attempts[j].stage < PENDING_WRITTEN ==> y.held == y.report
    ensures Quiet(site, j, y, QuietNext(site, j, y, s), s.attempts[j].stage + 1)
  {
  }

  lemma QuietStaysQuiet(site: Site, j: Job, y: Yield, s: World)
    requires j in s.attempts && Quiet(site, j, y, s, s.attempts[j].stage) && s.attempts[j].stage < COMMITTED
    requires s.attempts[j].stage < PENDING_WRITTEN ==> y.held == y.report
    ensures Quiet(site, j, y, QuietNext(site, j, y, s), s.attempts[j].stage + 1)
  {
    hide Quiet, QuietNext;
    if s.attempts[j].stage < EXECUTED {
      PreparingStaysQuiet(site, j, y, s);
    } else if s.attempts[j].stage < REPORT_MOVED {
      PublishingStaysQuiet(site, j, y, s);
    } else {
      CertifyingStaysQuiet(site, j, y, s);
    }
  }

  lemma QuietStep(site: Site, j: Job, y: Yield, s: World)
    requires Ready(site, j, y, s) && s.attempts[j].stage < COMMITTED
    ensures var t := QuietNext(site, j, y, s);
            && Advance(s, site, j, t) && Ready(site, j, y, t) && t.inputs == s.inputs
            && t.attempts[j].stage == s.attempts[j].stage + 1
  {
    QuietAdvances(site, j, y, s);
    QuietStaysQuiet(site, j, y, s);
    hide QuietNext, Inv, Prepares, Publishes, Checks, Certifies;
    AdvanceKeepsInv(site, s, j, QuietNext(site, j, y, s));
  }

  /** Steps of one attempt alone. */
  ghost predicate AloneFrom(site: Site, j: Job, run: seq<World>) {
    run != [] && forall i :: 0 <= i < |run| - 1 ==> Advance(run[i], site, j, run[i + 1])
  }

  /** An undisturbed attempt reaches any later stage. */
  lemma {:induction false} QuietRun(site: Site, j: Job, y: Yield, s: World, goal: nat) returns (run: seq<World>)
    requires Ready(site, j, y, s) && s.attempts[j].stage <= goal <= COMMITTED
    ensures AloneFrom(site, j, run) && run[0] == s
    ensures var last := run[|run| - 1];
            Ready(site, j, y, last) && last.attempts[j].stage == goal && last.inputs == s.inputs
    decreases goal - s.attempts[j].stage
  {
    if s.attempts[j].stage == goal {
      run := [s];
    } else {
      QuietStep(site, j, y, s);
      hide Ready, QuietNext, Advance;
      var rest := QuietRun(site, j, y, QuietNext(site, j, y, s), goal);
      run := [s] + rest;
    }
  }

  lemma BegunIsReady(site: Site, s: World, j: Job, y: Yield)
    requires Inv(site, s) && j !in s.attempts && Sound(site, y, s.inputs) && y.held == y.report
    ensures j !in s.jobs && Begin(s, j, Reached(s, j, NEW_ATTEMPT))
    ensures Ready(site, j, y, Reached(s, j, NEW_ATTEMPT))
  {
    BeginKeepsInv(site, s, j, Reached(s, j, NEW_ATTEMPT));
  }

  /** The end of an attempt that ran alone from some point on. */
  lemma CommittedIsAccepted(site: Site, j: Job, y: Yield, s: World)
    requires Ready(site, j, y, s) && s.attempts[j].stage == COMMITTED
    ensures Certified(s, site, j) && Accepts(s, site, KindOf(y.execution.producer))
    ensures s.attempts[j].produced == Some(y.report) && s.report == Some(y.held)
  {
    assert AttemptInv(site, j, s.attempts[j]);
    assert Certified(s, site, j);
    AcceptsExactlyCertified(site, s, KindOf(y.execution.producer));
  }

  /** From any reachable state, an attempt that nobody disturbs and whose producer completes with a
      valid report ends in a state where the reader accepts its evidence: that very report. */
  lemma UndisturbedAttemptIsAccepted(site: Site, s: World, j: Job, y: Yield) returns (run: seq<World>)
    requires Inv(site, s) && j !in s.attempts && Sound(site, y, s.inputs) && y.held == y.report
    ensures run != [] && Begin(s, j, run[0]) && AloneFrom(site, j, run)
    ensures Accepts(run[|run| - 1], site, KindOf(y.execution.producer))
    ensures Certified(run[|run| - 1], site, j) && run[|run| - 1].report == Some(y.report)
  {
    BegunIsReady(site, s, j, y);
    run := QuietRun(site, j, y, Reached(s, j, NEW_ATTEMPT), COMMITTED);
    CommittedIsAccepted(site, j, y, run[|run| - 1]);
  }

  // ---------- a replaced report ----------

  lemma ReplacedIsReady(site: Site, j: Job, y: Yield, s: World, other: Text)
    requires Ready(site, j, y, s) && s.attempts[j].stage == PENDING_WRITTEN
    requires site.valid(y.execution.producer, y.execution.partition, other, s.inputs)
    ensures var t := s.(pending := Some(other));
            Interfere(s, t) && Ready(site, j, y.(held := other), t)
  {
    NextKeepsInv(site, s, s.(pending := Some(other)));
  }

  lemma {:induction false} AloneIsRun(site: Site, j: Job, run: seq<World>, i: nat)
    requires AloneFrom(site, j, run) && i < |run| - 1
    ensures Next(run[i], site, run[i + 1])
  {
    hide Advance;
    assert Acts(run[i], site, j, run[i + 1]);
  }

  ghost predicate Steps(site: Site, run: seq<World>) {
    forall i :: 0 <= i < |run| - 1 ==> Next(run[i], site, run[i + 1])
  }

  lemma StepsAppend(site: Site, first: seq<World>, second: seq<World>)
    requires first != [] && second != [] && Steps(site, first) && Steps(site, second)
    requires Next(first[|first| - 1], site, second[0])
    ensures Steps(site, first + second)
  {
    hide Next;
    var run := first + second;
    forall i | 0 <= i < |run| - 1 ensures Next(run[i], site, run[i + 1]) {
      if i < |first| - 1 {
        assert Next(first[i], site, first[i + 1]);
      } else if i >= |first| {
        assert Next(second[i - |first|], site, second[i - |first| + 1]);
      }
    }
  }

  lemma AloneIsSteps(site: Site, j: Job, run: seq<World>)
    requires AloneFrom(site, j, run)
    ensures Steps(site, run)
  {
    hide Next;
    forall i | 0 <= i < |run| - 1 ensures Next(run[i], site, run[i + 1]) {
      AloneIsRun(site, j, run, i);
    }
  }

  /** Whoever replaces the pending file by another valid report before it is validated has that report
      accepted under the attempt's certificate, whatever the attempt itself produced. */
  lemma ReplacedReportIsAccepted(site: Site, s: World, j: Job, execution: Execution, produced: Text, other: Text)
    returns (run: seq<World>)
    requires Initial(s) && Sound(site, Yield(execution, produced, produced), s.inputs) && produced != other
    requires site.valid(execution.producer, execution.partition, other, s.inputs)
    ensures Run(site, run) && run[0] == s
    ensures var last := run[|run| - 1];
            && Accepts(last, site, KindOf(execution.producer)) && Certified(last, site, j)
            && last.attempts[j].produced == Some(produced) && last.report == Some(other)
  {
    var y := Yield(execution, produced, produced);
    InitialHasInv(site, s);
    BegunIsReady(site, s, j, y);
    var first := QuietRun(site, j, y, Reached(s, j, NEW_ATTEMPT), PENDING_WRITTEN);
    var middle := first[|first| - 1];
    ReplacedIsReady(site, j, y, middle, other);
    var second := QuietRun(site, j, y.(held := other), middle.(pending := Some(other)), COMMITTED);
    CommittedIsAccepted(site, j, y.(held := other), second[|second| - 1]);
    run := JoinedRun(site, s, j, first, second);
  }

  lemma JoinedRun(site: Site, s: World, j: Job, first: seq<World>, second: seq<World>) returns (run: seq<World>)
    requires Initial(s) && AloneFrom(site, j, first) && AloneFrom(site, j, second)
    requires Begin(s, j, first[0]) && Interfere(first[|first| - 1], second[0])
    ensures Run(site, run) && run[0] == s && run[|run| - 1] == second[|second| - 1]
  {
    hide Begin, Interfere, Advance;
    AloneIsSteps(site, j, first);
    AloneIsSteps(site, j, second);
    assert Acts(s, site, j, first[0]);
    StepsAppend(site, [s], first);
    assert ([s] + first)[|first|] == first[|first| - 1];
    StepsAppend(site, [s] + first, second);
    run := [s] + first + second;
  }
}
