/** What the runs of the evidence protocol have in common: what an attempt did before its evidence
    is accepted, and what is never accepted. */
module EvidenceHistory {
  import Runs
  import opened EvidenceProtocol
  import opened Wrappers

  // ---------- what has happened in a run ----------

  /** Between two states an attempt only grows; what it sealed it keeps. */
  ghost predicate Grown(s: World, j: Job, t: World) {
    && j in s.attempts && j in t.attempts
    && s.attempts[j].stage <= t.attempts[j].stage
    && (s.attempts[j].stage >= CAPTURED ==> t.attempts[j].before == s.attempts[j].before)
    && (s.attempts[j].stage >= PENDING_WRITTEN ==> t.attempts[j].produced == s.attempts[j].produced)
    && (s.attempts[j].stage >= SEALED ==> t.attempts[j].receipt == s.attempts[j].receipt)
    && (s.attempts[j].recordDropped ==> t.attempts[j].recordDropped)
  }

  /** What any step means for one attempt: it grows, and only its own advance adds a stage. */
  ghost predicate Traced(s: World, site: Site, j: Job, t: World) {
    && Grown(s, j, t)
    && (s.attempts[j].stage < t.attempts[j].stage ==>
          t.attempts[j].stage == s.attempts[j].stage + 1 && Advance(s, site, j, t))
  }

  lemma AdvanceTraces(site: Site, s: World, k: Job, t: World, j: Job)
    requires Advance(s, site, k, t) && j in s.attempts
    ensures Traced(s, site, j, t)
  {
  }

  lemma NextTraces(site: Site, s: World, t: World, j: Job)
    requires Next(s, site, t) && j in s.attempts
    ensures Traced(s, site, j, t)
  {
    if !Interfere(s, t) {
      var k :| Acts(s, site, k, t);
      ActsTrace(site, s, k, t, j);
    }
  }

  lemma ActsTrace(site: Site, s: World, k: Job, t: World, j: Job)
    requires Acts(s, site, k, t) && j in s.attempts
    ensures Traced(s, site, j, t)
  {
    hide Begin, Advance, Fail, Kill, Unwind, Traced;
    if Advance(s, site, k, t) {
      AdvanceTraces(site, s, k, t, j);
    } else if Unwind(s, k, t) {
      UnwindTraces(site, s, k, t, j);
    } else {
      EndTraces(site, s, k, t, j);
    }
  }

  lemma EndTraces(site: Site, s: World, k: Job, t: World, j: Job)
    requires (Begin(s, k, t) || Fail(s, k, t) || Kill(s, k, t)) && j in s.attempts
    ensures Traced(s, site, j, t)
  {
  }

  lemma UnwindTraces(site: Site, s: World, k: Job, t: World, j: Job)
    requires Unwind(s, k, t) && j in s.attempts
    ensures Traced(s, site, j, t)
  {
    hide Cleans;
  }

  /** An attempt that was not there before has only started. */
  lemma NewAttemptsStart(site: Site, s: World, t: World, j: Job)
    requires Next(s, site, t) && j !in s.attempts && j in t.attempts
    ensures t.attempts[j].stage == STARTED
  {
    hide Prepares, Publishes, Checks, Certifies, Cleans;
    var k :| Acts(s, site, k, t);
    assert k in t.attempts && t.attempts == s.attempts[k := t.attempts[k]];
  }

  lemma RunGrows(site: Site, run: seq<World>, i: nat, n: nat, j: Job)
    requires Run(site, run) && i <= n < |run| && j in run[i].attempts
    ensures Grown(run[i], j, run[n])
  {
    var grows := (s: World, t: World) => j in s.attempts ==> Grown(s, j, t);
    forall k | 0 <= k < |run| - 1
      ensures grows(run[k], run[k + 1])
    {
      if j in run[k].attempts {
        NextTraces(site, run[k], run[k + 1], j);
      }
    }
    Runs.RelatesAll(run, grows, i, n);
  }

  lemma NextCrosses(site: Site, s: World, t: World, j: Job, stage: nat)
    requires Next(s, site, t)
    requires j in t.attempts && stage < t.attempts[j].stage && (j in s.attempts ==> s.attempts[j].stage <= stage)
    ensures Advance(s, site, j, t) && s.attempts[j].stage == stage
  {
    if j in s.attempts {
      NextTraces(site, s, t, j);
    } else {
      NewAttemptsStart(site, s, t, j);
    }
  }

  /** An attempt that is past a stage took the step to it, at some moment of the run. */
  lemma StepWasTaken(site: Site, run: seq<World>, n: nat, j: Job, stage: nat) returns (i: nat)
    requires Run(site, run) && n < |run| && j in run[n].attempts && stage < run[n].attempts[j].stage
    ensures i < n && Advance(run[i], site, j, run[i + 1]) && run[i].attempts[j].stage == stage
    ensures Grown(run[i + 1], j, run[n])
  {
    i := Runs.BeginsToHold(run, (s: World) => j in s.attempts && stage < s.attempts[j].stage, 0, n);
    NextCrosses(site, run[i], run[i + 1], j, stage);
    RunGrows(site, run, i + 1, n, j);
  }

  /** The steps of one attempt happen in the order of their stages. */
  lemma StepsAreOrdered(site: Site, run: seq<World>, j: Job, i: nat, k: nat)
    requires Run(site, run) && i + 1 < |run| && k + 1 < |run|
    requires Advance(run[i], site, j, run[i + 1]) && Advance(run[k], site, j, run[k + 1])
    requires run[i].attempts[j].stage < run[k].attempts[j].stage
    ensures i < k
  {
    if k <= i {
      RunGrows(site, run, k, i, j);
    }
  }

  // ---------- the theorems ----------

  /** The attempt whose certificate the reader finds. */
  ghost predicate Certified(s: World, site: Site, j: Job) {
    && j in s.attempts
    && var a := s.attempts[j];
    && a.stage >= SLOT_WRITTEN && a.receipt.Some? && !a.recordDropped
    && s.receipt == Some(Sealed(a.receipt.value))
    && s.slot.Some? && s.slot.value.names == Some(RecordOf(a))
    && j !in s.jobs
    && s.report.Some? && Sha256(s.report.value) == a.receipt.value.reportHash
    && s.inputs == a.before
    && var e := a.receipt.value.execution;
       site.valid(e.producer, e.partition, s.report.value, a.before)
  }

  /** In a reachable state the reader accepts exactly the evidence of an attempt that marked the
      slot after all its checks, dropped no record, has its job removed, and whose receipt, report
      and inputs are those now found. */
  lemma AcceptsExactlyCertified(site: Site, s: World, kind: Kind)
    requires Inv(site, s)
    ensures Accepts(s, site, kind) <==>
            exists j :: Certified(s, site, j) && KindOf(s.attempts[j].receipt.value.execution.producer) == kind
  {
    if Accepts(s, site, kind) {
      var d := s.slot.value.names.value;
      assert Wrote(s, d, SLOT_WRITTEN) && Owned(s, d);
      var j := d.text.receipt.workspace.value;
      assert AttemptInv(site, j, s.attempts[j]);
      assert Certified(s, site, j);
    }
    if j :| Certified(s, site, j) && KindOf(s.attempts[j].receipt.value.execution.producer) == kind {
      assert AttemptInv(site, j, s.attempts[j]) && Kept(s, s.attempts[j]);
      assert Owned(s, RecordOf(s.attempts[j]));
    }
  }

  /** An attempt took the step from a stage at this moment of the run. */
  ghost predicate Took(site: Site, run: seq<World>, j: Job, i: nat, stage: nat) {
    i + 1 < |run| && Advance(run[i], site, j, run[i + 1]) && run[i].attempts[j].stage == stage
  }

  lemma WasCaptured(site: Site, run: seq<World>, n: nat, j: Job) returns (i: nat)
    requires Run(site, run) && n < |run| && j in run[n].attempts && run[n].attempts[j].stage > RECEIPT_REMOVED
    ensures i < n && Took(site, run, j, i, RECEIPT_REMOVED)
    ensures run[i].inputs == run[n].attempts[j].before
  {
    i := StepWasTaken(site, run, n, j, RECEIPT_REMOVED);
  }

  lemma WasRestored(site: Site, run: seq<World>, n: nat, j: Job) returns (i: nat)
    requires Run(site, run) && n < |run| && j in run[n].attempts && run[n].attempts[j].stage > COPIED
    ensures i < n && Took(site, run, j, i, COPIED)
    ensures CopyIs(run[i], j, run[n].attempts[j].before)
  {
    i := StepWasTaken(site, run, n, j, COPIED);
  }

  lemma WasExecuted(site: Site, run: seq<World>, n: nat, j: Job) returns (i: nat)
    requires Run(site, run) && n < |run| && j in run[n].attempts && run[n].attempts[j].stage > RESTORED
    ensures i < n && Took(site, run, j, i, RESTORED)
    ensures run[i].inputs == run[n].attempts[j].before
  {
    i := StepWasTaken(site, run, n, j, RESTORED);
  }

  lemma WasWritten(site: Site, run: seq<World>, n: nat, j: Job) returns (i: nat)
    requires Run(site, run) && n < |run| && j in run[n].attempts && run[n].attempts[j].stage > PUBLISHING
    ensures i < n && Took(site, run, j, i, PUBLISHING)
    ensures run[i + 1].pending == run[n].attempts[j].produced && run[i + 1].pending.Some?
  {
    i := StepWasTaken(site, run, n, j, PUBLISHING);
  }

  lemma WasSealed(site: Site, run: seq<World>, n: nat, j: Job) returns (i: nat)
    requires Run(site, run) && n < |run| && j in run[n].attempts && run[n].attempts[j].stage > VALIDATED
    ensures i < n && Took(site, run, j, i, VALIDATED)
    ensures run[i].pending.Some? && run[n].attempts[j].receipt.Some?
    ensures run[n].attempts[j].receipt.value.reportHash == Sha256(run[i].pending.value)
  {
    i := StepWasTaken(site, run, n, j, VALIDATED);
  }

  lemma WasCompared(site: Site, run: seq<World>, n: nat, j: Job) returns (i: nat)
    requires Run(site, run) && n < |run| && j in run[n].attempts && run[n].attempts[j].stage > SEALED
    ensures i < n && Took(site, run, j, i, SEALED)
    ensures run[i].inputs == run[n].attempts[j].before
  {
    i := StepWasTaken(site, run, n, j, SEALED);
  }

  lemma WasHashed(site: Site, run: seq<World>, n: nat, j: Job) returns (i: nat)
    requires Run(site, run) && n < |run| && j in run[n].attempts && run[n].attempts[j].stage > RECEIPT_WRITTEN
    ensures i < n && Took(site, run, j, i, RECEIPT_WRITTEN)
    ensures run[n].attempts[j].receipt.Some? && run[i].report.Some?
    ensures Sha256(run[i].report.value) == run[n].attempts[j].receipt.value.reportHash
  {
    i := StepWasTaken(site, run, n, j, RECEIPT_WRITTEN);
  }

  lemma WasReadBack(site: Site, run: seq<World>, n: nat, j: Job) returns (i: nat)
    requires Run(site, run) && n < |run| && j in run[n].attempts && run[n].attempts[j].stage > HASH_CHECKED
    ensures i < n && Took(site, run, j, i, HASH_CHECKED)
    ensures run[n].attempts[j].receipt.Some? && run[i].receipt == Some(Sealed(run[n].attempts[j].receipt.value))
  {
    i := StepWasTaken(site, run, n, j, HASH_CHECKED);
  }

  lemma WasRecompared(site: Site, run: seq<World>, n: nat, j: Job) returns (i: nat)
    requires Run(site, run) && n < |run| && j in run[n].attempts && run[n].attempts[j].stage > READ_BACK
    ensures i < n && Took(site, run, j, i, READ_BACK)
    ensures run[i].inputs == run[n].attempts[j].before
  {
    i := StepWasTaken(site, run, n, j, READ_BACK);
  }

  lemma WasMarked(site: Site, run: seq<World>, n: nat, j: Job) returns (i: nat)
    requires Run(site, run) && n < |run| && j in run[n].attempts && run[n].attempts[j].stage > SLOT_CREATED
    ensures i < n && Took(site, run, j, i, SLOT_CREATED)
  {
    i := StepWasTaken(site, run, n, j, SLOT_CREATED);
  }

  lemma TookInOrder(site: Site, run: seq<World>, j: Job, i: nat, stage: nat, k: nat, later: nat)
    requires Run(site, run) && Took(site, run, j, i, stage) && Took(site, run, j, k, later) && stage < later
    ensures i < k
  {
    hide Advance;
    StepsAreOrdered(site, run, j, i, k);
  }

  /** The attempt that vouches for what a reader found piece by piece: it marked the slot, had not
      dropped its record and had its job removed when the reader looked, and receipt, report and inputs
      are its own. */
  ghost predicate Vouched(site: Site, run: seq<World>, at: Reading, j: Job)
    requires Orderly(at, 0, |run|)
  {
    && j in run[at.slot].attempts && j in run[at.record].attempts
    && var a := run[at.slot].attempts[j];
    && a.stage >= SLOT_WRITTEN && a.receipt.Some? && !run[at.record].attempts[j].recordDropped
    && run[at.receipt].receipt == Some(Sealed(a.receipt.value))
    && run[at.slot].slot == Some(Slot(j, Some(RecordOf(a))))
    && j !in run[at.job].jobs
    && run[at.hash].report.Some? && Sha256(run[at.hash].report.value) == a.receipt.value.reportHash
    && run[at.inputs].inputs == a.before
  }

  /** However others and other attempts act while a reader reads, what it accepts some attempt vouches for. */
  lemma AcceptedIsVouched(site: Site, run: seq<World>, at: Reading, kind: Kind) returns (j: Job)
    requires Run(site, run) && Orderly(at, 0, |run|) && AcceptsOver(run, at, site, kind)
    ensures Vouched(site, run, at, j)
    ensures KindOf(run[at.slot].attempts[j].receipt.value.execution.producer) == kind
  {
    RunKeepsInv(site, run, at.slot);
    RunKeepsInv(site, run, at.record);
    hide Run;
    var d := Sha256(run[at.receipt].receipt.value);
    assert Wrote(run[at.slot], d, SLOT_WRITTEN) && Owned(run[at.record], d);
    j := d.text.receipt.workspace.value;
    assert AttemptInv(site, j, run[at.slot].attempts[j]);
  }

  /** Accepted evidence has a history: some attempt captured these inputs, found them in the copy and
      then in the checkout after its producer ran, found them again before publishing, then found the
      report's bytes and the receipt's bytes that the reader found, found the inputs once more, and only
      then marked the slot. */
  lemma AcceptedWasChecked(site: Site, run: seq<World>, at: Reading, kind: Kind)
    returns (j: Job, captured: nat, restored: nat, executed: nat, checked: nat, hashed: nat, readBack: nat,
             rechecked: nat, marked: nat)
    requires Run(site, run) && Orderly(at, 0, |run|) && AcceptsOver(run, at, site, kind)
    ensures captured < restored < executed < checked < hashed < readBack < rechecked < marked < at.slot
    ensures Vouched(site, run, at, j)
    ensures run[captured].inputs == run[executed].inputs == run[checked].inputs == run[rechecked].inputs ==
            run[at.inputs].inputs
    ensures CopyIs(run[restored], j, run[at.inputs].inputs)
    ensures run[hashed].report == run[at.hash].report
    ensures run[readBack].receipt == run[at.receipt].receipt
    ensures Took(site, run, j, marked, SLOT_CREATED)
  {
    hide Run, Took, AcceptsOver;
    j := AcceptedIsVouched(site, run, at, kind);
    var n := at.slot;
    captured := WasCaptured(site, run, n, j);
    restored := WasRestored(site, run, n, j);
    executed := WasExecuted(site, run, n, j);
    checked := WasCompared(site, run, n, j);
    hashed := WasHashed(site, run, n, j);
    readBack := WasReadBack(site, run, n, j);
    rechecked := WasRecompared(site, run, n, j);
    marked := WasMarked(site, run, n, j);
    TookInOrder(site, run, j, captured, RECEIPT_REMOVED, restored, COPIED);
    TookInOrder(site, run, j, restored, COPIED, executed, RESTORED);
    TookInOrder(site, run, j, executed, RESTORED, checked, SEALED);
    TookInOrder(site, run, j, checked, SEALED, hashed, RECEIPT_WRITTEN);
    TookInOrder(site, run, j, hashed, RECEIPT_WRITTEN, readBack, HASH_CHECKED);
    TookInOrder(site, run, j, readBack, HASH_CHECKED, rechecked, READ_BACK);
    TookInOrder(site, run, j, rechecked, READ_BACK, marked, SLOT_CREATED);
  }

  // ---------- whose bytes are accepted ----------

  /** The accepted report is what the pending file held when the attempt sealed its receipt; the
      pending file held the attempt's own report right after it was written. */
  lemma AcceptedIsSealed(site: Site, run: seq<World>, at: Reading, kind: Kind)
    returns (j: Job, written: nat, sealed: nat)
    requires Run(site, run) && Orderly(at, 0, |run|) && AcceptsOver(run, at, site, kind)
    ensures Vouched(site, run, at, j) && written < sealed < at.slot
    ensures Took(site, run, j, written, PUBLISHING) && Took(site, run, j, sealed, VALIDATED)
    ensures run[written + 1].pending == run[at.slot].attempts[j].produced
    ensures run[at.hash].report == run[sealed].pending
  {
    hide Run, Took, AcceptsOver;
    j := AcceptedIsVouched(site, run, at, kind);
    written := WasWritten(site, run, at.slot, j);
    sealed := WasSealed(site, run, at.slot, j);
    TookInOrder(site, run, j, written, PUBLISHING, sealed, VALIDATED);
  }

  /** Between two states of a run, whatever changed the pending file was a step of this attempt. */
  ghost predicate OnlyOwnChanges(site: Site, run: seq<World>, j: Job, from: nat, to: nat) {
    forall k :: from <= k < to && k + 1 < |run| ==>
      run[k + 1].pending == run[k].pending || Advance(run[k], site, j, run[k + 1])
  }

  lemma OwnStepKeepsPending(site: Site, s: World, j: Job, t: World)
    requires Advance(s, site, j, t) && PENDING_WRITTEN <= s.attempts[j].stage <= VALIDATED
    ensures t.pending == s.pending
  {
    hide Prepares, Checks, Certifies, Seal;
  }

  lemma StageBetween(site: Site, run: seq<World>, j: Job, from: nat, k: nat, to: nat)
    requires Run(site, run) && from <= k <= to < |run| && j in run[from].attempts && j in run[to].attempts
    ensures j in run[k].attempts && run[from].attempts[j].stage <= run[k].attempts[j].stage <= run[to].attempts[j].stage
  {
    hide Run;
    RunGrows(site, run, from, k, j);
    RunGrows(site, run, k, to, j);
  }

  lemma PendingStays(site: Site, run: seq<World>, j: Job, from: nat, to: nat)
    requires Run(site, run) && from <= to < |run| && j in run[from].attempts && j in run[to].attempts
    requires PENDING_WRITTEN <= run[from].attempts[j].stage && run[to].attempts[j].stage <= VALIDATED
    requires OnlyOwnChanges(site, run, j, from, to)
    ensures run[from].pending == run[to].pending
  {
    hide Run, Advance;
    forall k: nat | from <= k < to ensures run[k + 1].pending == run[k].pending {
      StageBetween(site, run, j, from, k, to);
      LastStepKeepsPending(site, run, j, k);
    }
    Runs.StaysEqual(run, (s: World) => s.pending, from, to);
  }

  lemma LastStepKeepsPending(site: Site, run: seq<World>, j: Job, k: nat)
    requires k + 1 < |run| && j in run[k].attempts && PENDING_WRITTEN <= run[k].attempts[j].stage <= VALIDATED
    requires run[k + 1].pending == run[k].pending || Advance(run[k], site, j, run[k + 1])
    ensures run[k + 1].pending == run[k].pending
  {
    hide Advance;
    if run[k + 1].pending != run[k].pending {
      OwnStepKeepsPending(site, run[k], j, run[k + 1]);
    }
  }

  lemma TookBounds(site: Site, run: seq<World>, j: Job, i: nat, stage: nat)
    requires Took(site, run, j, i, stage)
    ensures i + 1 < |run| && j in run[i].attempts && j in run[i + 1].attempts
    ensures run[i].attempts[j].stage == stage && run[i + 1].attempts[j].stage == stage + 1
  {
    hide Prepares, Publishes, Checks, Certifies;
  }

  /** The accepted report is the one that the accepted attempt produced exactly when the pending file
      still held it at the moment of sealing; it did whenever nobody else changed that file in
      between. */
  lemma AcceptedIsProducedExactly(site: Site, run: seq<World>, at: Reading, kind: Kind)
    returns (j: Job, written: nat, sealed: nat)
    requires Run(site, run) && Orderly(at, 0, |run|) && AcceptsOver(run, at, site, kind)
    ensures Vouched(site, run, at, j) && written < sealed < at.slot
    ensures Took(site, run, j, written, PUBLISHING) && Took(site, run, j, sealed, VALIDATED)
    ensures run[at.hash].report == run[at.slot].attempts[j].produced <==>
            run[sealed].pending == run[written + 1].pending
    ensures OnlyOwnChanges(site, run, j, written + 1, sealed) ==>
              run[at.hash].report == run[at.slot].attempts[j].produced
  {
    hide Run, Took, OnlyOwnChanges, AcceptsOver;
    j, written, sealed := AcceptedIsSealed(site, run, at, kind);
    TookBounds(site, run, j, written, PUBLISHING);
    TookBounds(site, run, j, sealed, VALIDATED);
    if OnlyOwnChanges(site, run, j, written + 1, sealed) {
      PendingStays(site, run, j, written + 1, sealed);
    }
  }

  /** A slot that was empty and now names a receipt was marked in between by the receipt's attempt. */
  lemma SlotWasMarked(site: Site, run: seq<World>, lo: nat, n: nat, owner: Job, d: Digest) returns (m: nat)
    requires Run(site, run) && lo < n < |run|
    requires run[lo].slot == None && run[n].slot == Some(Slot(owner, Some(d)))
    ensures lo <= m < n && Marks(site, run[m], owner, run[m + 1])
  {
    hide Run, Marks;
    var marked := Some(Slot(owner, Some(d)));
    m := Runs.BeginsToHold(run, (s: World) => s.slot == marked, lo, n);
    assert run[m].slot != marked && run[m + 1].slot == marked;
    RunMarks(site, run, m);
  }

  lemma RunMarks(site: Site, run: seq<World>, m: nat)
    requires Run(site, run) && m < |run| - 1
    requires run[m + 1].slot != run[m].slot && run[m + 1].slot.Some? && run[m + 1].slot.value.names.Some?
    ensures Marks(site, run[m], run[m + 1].slot.value.owner, run[m + 1])
  {
    OnlyMarksName(site, run[m], run[m + 1]);
  }

  /** The step that writes an attempt's digest into the slot. */
  ghost predicate Marks(site: Site, s: World, j: Job, t: World) {
    Advance(s, site, j, t) && s.attempts[j].stage == SLOT_CREATED
  }

  lemma CertifyingMarksOnlyOwn(s: World, j: Job, t: World)
    requires j in s.attempts && s.attempts[j].receipt.Some? && Certifies(s, j, t)
    requires t.slot != s.slot && t.slot.Some? && t.slot.value.names.Some?
    ensures t.slot.value.owner == j && s.attempts[j].stage == SLOT_CREATED
  {
  }

  lemma AdvanceMarksOnlyOwn(site: Site, s: World, j: Job, t: World)
    requires Advance(s, site, j, t) && t.slot != s.slot && t.slot.Some? && t.slot.value.names.Some?
    ensures t.slot.value.owner == j && s.attempts[j].stage == SLOT_CREATED
  {
    hide Prepares, Publishes, Checks, Certifies;
    AdvanceFramed(site, s, j, t);
    CertifyingMarksOnlyOwn(s, j, t);
  }

  lemma OnlyMarksName(site: Site, s: World, t: World)
    requires Next(s, site, t)
    requires t.slot != s.slot && t.slot.Some? && t.slot.value.names.Some?
    ensures Marks(site, s, t.slot.value.owner, t)
  {
    hide Prepares, Publishes, Checks, Certifies, Cleans;
    var j :| Acts(s, site, j, t);
    if Advance(s, site, j, t) {
      AdvanceMarksOnlyOwn(site, s, j, t);
    }
  }

  lemma RevokingEmptiesSlot(site: Site, s: World, b: Job, t: World)
    requires Advance(s, site, b, t) && s.attempts[b].stage == STARTED
    ensures t.slot == None
  {
    hide Publishes, Checks, Certifies;
  }

  /** Revoking rejects all earlier evidence: what a reader accepts that looks at the slot later was
      marked after the revocation. */
  lemma RevokedUntilMarkedAgain(site: Site, run: seq<World>, i: nat, b: Job, at: Reading, kind: Kind)
    returns (j: Job, m: nat)
    requires Run(site, run) && Orderly(at, 0, |run|) && AcceptsOver(run, at, site, kind) && i < at.slot
    requires Advance(run[i], site, b, run[i + 1]) && run[i].attempts[b].stage == STARTED
    ensures i < m < at.slot && Vouched(site, run, at, j) && Marks(site, run[m], j, run[m + 1])
  {
    hide Run, AcceptsOver, Advance, Marks;
    j := AcceptedIsVouched(site, run, at, kind);
    RevokingEmptiesSlot(site, run[i], b, run[i + 1]);
    m := SlotWasMarked(site, run, i + 1, at.slot, j, RecordOf(run[at.slot].attempts[j]));
  }

  /** An attempt that unwound with its record removed vouches for nothing that is read later. */
  lemma UnwoundIsNeverAccepted(site: Site, run: seq<World>, i: nat, at: Reading, j: Job, kind: Kind)
    requires Run(site, run) && Orderly(at, 0, |run|) && i <= at.record
    requires j in run[i].attempts && run[i].attempts[j].recordDropped
    ensures !Vouched(site, run, at, j)
    ensures AcceptsOver(run, at, site, kind) ==> run[at.receipt].receipt.value.receipt.workspace != Some(j)
  {
    RunGrows(site, run, i, at.record, j);
    if AcceptsOver(run, at, site, kind) {
      var k := AcceptedIsVouched(site, run, at, kind);
      RunKeepsInv(site, run, at.slot);
      assert AttemptInv(site, k, run[at.slot].attempts[k]);
    }
  }
}
