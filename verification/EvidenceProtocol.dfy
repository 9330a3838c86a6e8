/** Evidence publication as a state machine.  Any number of producer attempts write one report,
    one receipt and a private registry, in every interleaving, each attempt possibly failing or
    being killed between any two steps, while anything in the checkout may be edited by others.
    The theorems say what the reader can accept in a reachable state.

    SHA-256 and the serialisation of receipts are injective here by construction. */
module EvidenceProtocol {
  import Runs
  import opened Wrappers

  datatype Producer = CargoLlvmCov | Vitest | CargoMutants | Stryker | Pytest
  datatype Kind = Coverage | Mutation

  function KindOf(p: Producer): Kind {
    match p
    case CargoLlvmCov | Vitest | Pytest => Coverage
    case CargoMutants | Stryker => Mutation
  }

  predicate AllowedExit(p: Producer, code: int) {
    || code == 0
    || (p == CargoMutants && (code == 2 || code == 3))
    || (p == Stryker && code == 1)
  }

  /** The project inputs of a tree: each path with the hash of its content. */
  type Snapshot = map<string, string>
  type Job = nat

  /** The content of a file: a serialised receipt, or anything else. */
  datatype Text = Raw(bytes: string) | Sealed(receipt: Receipt)
  datatype Digest = Sha256(text: Text)

  /** What the producer's execution was: its version, the commands run and how the last one ended;
      a partition when it covers only some sources. */
  datatype Execution = Execution(producer: Producer, version: string, command: seq<seq<string>>,
                                 exit: int, prerequisitePassed: bool, partition: Option<string>)

  datatype Receipt = Receipt(schemaVersion: nat, root: string, execution: Execution, inputs: Snapshot,
                             reportHash: Digest, restorationVerified: bool, workspace: Option<Job>)

  // ---------- an attempt ----------

  // How far an attempt has come: the number of the last step it completed.
  const STARTED := 0
  const REVOKED := 1
  const RECEIPT_REMOVED := 2
  const CAPTURED := 3
  const JOB_CREATED := 4
  const COPY_CHECKED := 5
  const COPIED := 6
  const RESTORED := 7
  const EXECUTED := 8
  const PUBLISHING := 9
  const PENDING_WRITTEN := 10
  const VALIDATED := 11
  const SEALED := 12
  const INPUTS_CHECKED := 13
  const REPORT_MOVED := 14
  const RECEIPT_WRITTEN := 15
  const HASH_CHECKED := 16
  const READ_BACK := 17
  const INPUTS_RECHECKED := 18
  const RECORD_CREATED := 19
  const RECORD_WRITTEN := 20
  const SLOT_CREATED := 21
  const SLOT_WRITTEN := 22
  const SLOT_READ := 23
  const SELF_VERIFIED := 24
  const JOB_REMOVED := 25
  const COMMITTED := 26

  /** Running; leaving on an error, with the drop guards still to run; ended by them; or killed. */
  datatype Fate = Running | Unwinding(cleaned: nat) | Failed | Killed

  datatype Attempt = Attempt(stage: nat, fate: Fate, before: Snapshot, execution: Option<Execution>,
                             produced: Option<Text>, receipt: Option<Receipt>, recordDropped: bool)

  const NEW_ATTEMPT := Attempt(STARTED, Running, map[], None, None, None, false)

  // ---------- the world ----------

  // A job directory holds a copy of the tree; `jobs` has the inputs found in each copy.

  /** The slot of a report in the registry: the attempt whose file it is, and the digest once written. */
  datatype Slot = Slot(owner: Job, names: Option<Digest>)

  datatype World = World(
    report: Option<Text>, pending: Option<Text>, receipt: Option<Text>, inputs: Snapshot,
    slot: Option<Slot>, records: map<Digest, Option<Text>>,
    jobs: map<Job, Snapshot>, attempts: map<Job, Attempt>)

  /** The checkout, and how a report is validated against the partition and the inputs. */
  datatype Site = Site(root: string, valid: (Producer, Option<string>, Text, Snapshot) -> bool)

  /** An execution as `run_producer` lets it through: allowed exit, known version, commands, and
      for cargo-mutants the passed full-workspace baseline first. */
  predicate Completed(e: Execution) {
    && AllowedExit(e.producer, e.exit)
    && e.version != ""
    && e.command != []
    && (e.producer == CargoMutants ==>
          e.prerequisitePassed && |e.command| >= 2 && "test" in e.command[0] && "--workspace" in e.command[0])
  }

  /** The slot names the digest of these receipt bytes. */
  predicate Named(slot: Option<Slot>, bytes: Text) {
    slot.Some? && slot.value.names == Some(Sha256(bytes))
  }

  /** The record under the digest of these receipt bytes holds them. */
  predicate Held(records: map<Digest, Option<Text>>, bytes: Text) {
    Sha256(bytes) in records && records[Sha256(bytes)] == Some(bytes)
  }

  /** What the reader requires of the receipt itself. */
  predicate Proper(r: Receipt, site: Site, kind: Kind) {
    && r.root == site.root && r.schemaVersion == 2 && r.restorationVerified
    && KindOf(r.execution.producer) == kind && Completed(r.execution)
  }

  predicate JobGone(r: Receipt, jobs: map<Job, Snapshot>) {
    r.workspace.Some? ==> r.workspace.value !in jobs
  }

  predicate HashIs(report: Option<Text>, r: Receipt) {
    report.Some? && Sha256(report.value) == r.reportHash
  }

  predicate ContentIsValid(report: Option<Text>, r: Receipt, site: Site) {
    report.Some? && site.valid(r.execution.producer, r.execution.partition, report.value, r.inputs)
  }

  /** The reader: everything `verify` requires of the files it finds, when it finds them in one state. */
  predicate Accepts(s: World, site: Site, kind: Kind) {
    && s.receipt.Some?
    && var bytes := s.receipt.value;
    && Named(s.slot, bytes) && Held(s.records, bytes) && bytes.Sealed?
    && var r := bytes.receipt;
    && Proper(r, site, kind) && JobGone(r, s.jobs) && HashIs(s.report, r) && s.inputs == r.inputs
    && ContentIsValid(s.report, r, site)
  }

  /** The moments of a run at which a reader looks at the receipt, the slot, the record, the job, the
      report for its hash, the inputs, and the report for its content. */
  datatype Reading = Reading(receipt: nat, slot: nat, record: nat, job: nat, hash: nat, inputs: nat, content: nat)

  /** The reader takes its looks in this order. */
  predicate Orderly(at: Reading, from: nat, to: nat) {
    from <= at.receipt <= at.slot <= at.record <= at.job <= at.hash <= at.inputs <= at.content < to
  }

  /** What the reader requires of what it finds, each thing as it was when it looked. */
  predicate AcceptsOver(run: seq<World>, at: Reading, site: Site, kind: Kind)
    requires Orderly(at, 0, |run|)
  {
    && run[at.receipt].receipt.Some?
    && var bytes := run[at.receipt].receipt.value;
    && Named(run[at.slot].slot, bytes) && Held(run[at.record].records, bytes) && bytes.Sealed?
    && var r := bytes.receipt;
    && Proper(r, site, kind) && JobGone(r, run[at.job].jobs) && HashIs(run[at.hash].report, r)
    && run[at.inputs].inputs == r.inputs && ContentIsValid(run[at.content].report, r, site)
  }

  function AtOnce(n: nat): Reading {
    Reading(n, n, n, n, n, n, n)
  }

  /** A reader that nobody disturbs finds everything in one state. */
  lemma ReadingAtOnce(run: seq<World>, n: nat, site: Site, kind: Kind)
    requires n < |run|
    ensures Orderly(AtOnce(n), 0, |run|) && (AcceptsOver(run, AtOnce(n), site, kind) <==> Accepts(run[n], site, kind))
  {
  }

  // ---------- the steps ----------

  function Reached(s: World, j: Job, a: Attempt): World {
    s.(attempts := s.attempts[j := a])
  }

  /** One completed step of a running attempt: it goes to its next stage, the other attempts stay, and
      the files change as the stage says. */
  ghost predicate Advance(s: World, site: Site, j: Job, t: World) {
    && j in s.attempts && j in t.attempts
    && s.attempts[j].fate == Running && s.attempts[j].stage < COMMITTED
    && t.attempts == s.attempts[j := t.attempts[j]]
    && t.attempts[j].stage == s.attempts[j].stage + 1
    && t.attempts[j].fate == Running && t.attempts[j].recordDropped == s.attempts[j].recordDropped
    && var a := s.attempts[j];
       if a.stage < EXECUTED then Prepares(s, j, t)
       else if a.stage < REPORT_MOVED then Publishes(s, site, j, t)
       else a.receipt.Some? && if a.stage < INPUTS_RECHECKED then Checks(s, j, t) else Certifies(s, j, t)
  }

  /** From the start to the end of the producer's execution. */
  ghost predicate Prepares(s: World, j: Job, t: World)
    requires j in s.attempts && j in t.attempts
  {
    var a, b := s.attempts[j], t.attempts[j];
    var next := a.(stage := a.stage + 1);
    if a.stage == STARTED then t == Reached(s, j, next).(slot := None)
    else if a.stage == REVOKED then t == Reached(s, j, next).(receipt := None)
    else if a.stage == RECEIPT_REMOVED then s.inputs != map[] && t == Reached(s, j, next.(before := s.inputs))
    else if a.stage == CAPTURED then
      j in t.jobs && t == Reached(s, j, next).(jobs := s.jobs[j := t.jobs[j]])
    else if a.stage == JOB_CREATED || a.stage == COPIED then CopyIs(s, j, a.before) && t == Reached(s, j, next)
    else if a.stage == COPY_CHECKED then s.inputs == a.before && t == Reached(s, j, next)
    else
      s.inputs == a.before && b.execution.Some? && Completed(b.execution.value) &&
      t == Reached(s, j, next.(execution := b.execution))
  }

  /** From the pending report to its publication. */
  ghost predicate Publishes(s: World, site: Site, j: Job, t: World)
    requires j in s.attempts && j in t.attempts
  {
    var a, b := s.attempts[j], t.attempts[j];
    var next := a.(stage := a.stage + 1);
    if a.stage == EXECUTED then t == Reached(s, j, next)
    else if a.stage == PUBLISHING then
      b.produced.Some? && t == Reached(s, j, next.(produced := b.produced)).(pending := b.produced)
    else if a.stage == PENDING_WRITTEN then
      s.pending.Some? && a.execution.Some? && t == Reached(s, j, next) &&
      site.valid(a.execution.value.producer, a.execution.value.partition, s.pending.value, a.before)
    else if a.stage == VALIDATED then
      s.pending.Some? && a.execution.Some? &&
      t == Reached(s, j, next.(receipt := Some(Seal(site, j, a, s.pending.value))))
    else if a.stage == SEALED then s.inputs == a.before && t == Reached(s, j, next)
    else s.pending.Some? && t == Reached(s, j, next).(report := s.pending, pending := None)
  }

  /** The receipt is written, and report, receipt and inputs are checked. */
  ghost predicate Checks(s: World, j: Job, t: World)
    requires j in s.attempts && s.attempts[j].receipt.Some?
  {
    var a := s.attempts[j];
    var next := a.(stage := a.stage + 1);
    if a.stage == REPORT_MOVED then t == Reached(s, j, next).(receipt := Some(Sealed(a.receipt.value)))
    else
      && t == Reached(s, j, next)
      && (a.stage == RECEIPT_WRITTEN ==> s.report.Some? && Sha256(s.report.value) == a.receipt.value.reportHash)
      && (a.stage == HASH_CHECKED ==> s.receipt == Some(Sealed(a.receipt.value)))
      && (a.stage == READ_BACK ==> s.inputs == a.before)
  }

  /** Record and slot are written and verified; the job is removed; the attempt commits. */
  ghost predicate Certifies(s: World, j: Job, t: World)
    requires j in s.attempts && s.attempts[j].receipt.Some?
  {
    var a := s.attempts[j];
    var next := a.(stage := a.stage + 1);
    if a.stage == INPUTS_RECHECKED then
      RecordOf(a) !in s.records && t == Reached(s, j, next).(records := s.records[RecordOf(a) := None])
    else if a.stage == RECORD_CREATED then
      t == Reached(s, j, next).(records := s.records[RecordOf(a) := Some(RecordOf(a).text)])
    else if a.stage == RECORD_WRITTEN then s.slot == None && t == Reached(s, j, next).(slot := Some(Slot(j, None)))
    else if a.stage == SLOT_CREATED then t == Reached(s, j, next).(slot := WrittenSlot(s.slot, j, RecordOf(a)))
    else if a.stage == SLOT_WRITTEN then
      s.slot.Some? && s.slot.value.names == Some(RecordOf(a)) && t == Reached(s, j, next)
    else if a.stage == SLOT_READ then
      RecordOf(a) in s.records && s.records[RecordOf(a)] == Some(RecordOf(a).text) && t == Reached(s, j, next)
    else if a.stage == SELF_VERIFIED then t == Reached(s, j, next).(jobs := s.jobs - {j})
    else t == Reached(s, j, next)
  }

  /** The job's copy holds these inputs. */
  predicate CopyIs(s: World, j: Job, before: Snapshot) {
    j in s.jobs && s.jobs[j] == before
  }

  /** Writing to the slot file that was opened: without effect when someone has removed that file. */
  function WrittenSlot(slot: Option<Slot>, j: Job, d: Digest): Option<Slot> {
    if slot.Some? && slot.value.owner == j then Some(Slot(j, Some(d))) else slot
  }

  function Seal(site: Site, j: Job, a: Attempt, pending: Text): Receipt
    requires a.execution.Some?
  {
    Receipt(2, site.root, a.execution.value, a.before, Sha256(pending), true, Some(j))
  }

  /** The name of an attempt's record in the registry: the digest of its receipt's bytes. */
  function RecordOf(a: Attempt): Digest
    requires a.receipt.Some?
  {
    Sha256(Sealed(a.receipt.value))
  }

  /** A new attempt has a job identity that no attempt had before. */
  ghost predicate Begin(s: World, j: Job, t: World) {
    j !in s.attempts && j !in s.jobs && t == Reached(s, j, NEW_ATTEMPT)
  }

  /** Any step of a running attempt may fail; the error unwinds through the guards. */
  ghost predicate Fail(s: World, j: Job, t: World) {
    j in s.attempts && s.attempts[j].fate == Running && s.attempts[j].stage < COMMITTED &&
    t == Reached(s, j, s.attempts[j].(fate := Unwinding(0)))
  }

  /** A process may be killed between any two steps; no guard runs. */
  ghost predicate Kill(s: World, j: Job, t: World) {
    j in s.attempts && !s.attempts[j].fate.Failed? && !s.attempts[j].fate.Killed? && s.attempts[j].stage < COMMITTED &&
    t == Reached(s, j, s.attempts[j].(fate := Killed))
  }

  /** One effect of the guards: only the attempt's fate moves on, and its record may be dropped. */
  ghost predicate Unwind(s: World, j: Job, t: World) {
    && j in s.attempts && s.attempts[j].fate.Unwinding?
    && j in t.attempts && t.attempts == s.attempts[j := t.attempts[j]]
    && t.attempts[j] == s.attempts[j].(fate := t.attempts[j].fate, recordDropped := t.attempts[j].recordDropped)
    && (s.attempts[j].recordDropped ==> t.attempts[j].recordDropped)
    && t.jobs == s.jobs && (t.slot == s.slot || t.slot == None)
    && Cleans(s, j, t)
  }

  /** The effects in drop order: the certification's slot and record, then the pending receipt.  A
      removal may itself fail and then has no effect. */
  ghost predicate Cleans(s: World, j: Job, t: World)
    requires j in s.attempts && s.attempts[j].fate.Unwinding?
  {
    var a := s.attempts[j];
    var next := a.(fate := Unwinding(a.fate.cleaned + 1));
    match a.fate.cleaned
    case 0 => t == Reached(s, j, next) || (a.stage >= RECORD_CREATED && t == Reached(s, j, next).(slot := None))
    case 1 => t == Reached(s, j, next) ||
              (a.stage >= RECORD_CREATED && a.receipt.Some? &&
               t == Reached(s, j, next.(recordDropped := true)).(records := s.records - {RecordOf(a)}))
    case 2 => t == Reached(s, j, next) || (a.stage >= REPORT_MOVED && t == Reached(s, j, next).(receipt := None))
    case _ => t == Reached(s, j, a.(fate := Failed))
  }

  /** Others may write anything in the checkout and in the copies, as the producer's own commands do,
      and remove retained jobs, but not the registry. */
  ghost predicate Interfere(s: World, t: World) {
    t.slot == s.slot && t.records == s.records && t.attempts == s.attempts && t.jobs.Keys <= s.jobs.Keys
  }

  /** Any step of one attempt. */
  ghost predicate Acts(s: World, site: Site, j: Job, t: World) {
    Begin(s, j, t) || Advance(s, site, j, t) || Fail(s, j, t) || Kill(s, j, t) || Unwind(s, j, t)
  }

  ghost predicate Next(s: World, site: Site, t: World) {
    Interfere(s, t) || exists j :: Acts(s, site, j, t)
  }

  /** A registry and a job root that no attempt has used yet. */
  ghost predicate Initial(s: World) {
    s.slot == None && s.records == map[] && s.attempts == map[] && s.jobs == map[]
  }

  ghost predicate Run(site: Site, run: seq<World>) {
    && run != []
    && Initial(run[0])
    && forall i :: 0 <= i < |run| - 1 ==> Next(run[i], site, run[i + 1])
  }

  // ---------- the invariant ----------

  /** What an attempt has recorded about itself by its stage. */
  ghost predicate AttemptInv(site: Site, j: Job, a: Attempt) {
    && a.stage <= COMMITTED
    && (a.stage >= EXECUTED ==> a.execution.Some? && Completed(a.execution.value))
    && (a.stage >= PENDING_WRITTEN ==> a.produced.Some?)
    && (a.stage < SEALED ==> a.receipt == None)
    && (a.stage >= SEALED ==>
          && a.receipt.Some?
          && var r := a.receipt.value;
          r == Receipt(2, site.root, a.execution.value, a.before, r.reportHash, true, Some(j)))
    && (a.recordDropped ==> a.stage >= RECORD_CREATED && !a.fate.Running?)
  }

  /** The attempt that wrote a receipt, from the receipt's bytes. */
  ghost predicate Wrote(s: World, d: Digest, stage: nat) {
    && d.text.Sealed?
    && d.text.receipt.workspace.Some?
    && var j := d.text.receipt.workspace.value;
    && j in s.attempts
    && s.attempts[j].receipt == Some(d.text.receipt)
    && s.attempts[j].stage >= stage
  }

  /** A record in the registry belongs to an attempt that created it and has not dropped it. */
  ghost predicate Owned(s: World, d: Digest) {
    && d in s.records
    && Wrote(s, d, RECORD_CREATED)
    && !s.attempts[d.text.receipt.workspace.value].recordDropped
    && (s.records[d].Some? ==> s.records[d] == Some(d.text) && Wrote(s, d, RECORD_WRITTEN))
  }

  /** An attempt that created its record and has not dropped it still has it. */
  ghost predicate Kept(s: World, a: Attempt) {
    a.stage >= RECORD_CREATED && a.receipt.Some? && !a.recordDropped ==>
      RecordOf(a) in s.records && (a.stage >= RECORD_WRITTEN ==> s.records[RecordOf(a)].Some?)
  }

  ghost predicate RecordsInv(s: World) {
    && (forall d :: d in s.records ==> Owned(s, d))
    && forall j :: j in s.attempts ==> Kept(s, s.attempts[j])
  }

  ghost predicate SlotInv(s: World) {
    s.slot.Some? && s.slot.value.names.Some? ==>
      && Wrote(s, s.slot.value.names.value, SLOT_WRITTEN)
      && s.slot.value.names.value.text.receipt.workspace == Some(s.slot.value.owner)
  }

  ghost predicate JobsInv(s: World) {
    && s.jobs.Keys <= s.attempts.Keys
    && forall j :: j in s.attempts && (s.attempts[j].stage < JOB_CREATED || s.attempts[j].stage >= JOB_REMOVED) ==>
                   j !in s.jobs
  }

  ghost predicate Inv(site: Site, s: World) {
    && (forall j :: j in s.attempts ==> AttemptInv(site, j, s.attempts[j]))
    && RecordsInv(s)
    && SlotInv(s)
    && JobsInv(s)
  }

  /** One attempt moved on and kept what it had recorded; the others stayed. */
  ghost predicate Moved(s: World, j: Job, t: World) {
    && j in s.attempts && j in t.attempts
    && t.attempts == s.attempts[j := t.attempts[j]]
    && s.attempts[j].stage <= t.attempts[j].stage
    && (s.attempts[j].stage >= SEALED ==> t.attempts[j].receipt == s.attempts[j].receipt)
  }

  lemma AdvanceMoves(site: Site, s: World, j: Job, t: World)
    requires Advance(s, site, j, t) && AttemptInv(site, j, s.attempts[j])
    ensures Moved(s, j, t) && AttemptInv(site, j, t.attempts[j])
    ensures t.attempts[j].stage == s.attempts[j].stage + 1 && t.attempts[j].recordDropped == s.attempts[j].recordDropped
  {
  }

  lemma MovedKeepsWriters(s: World, j: Job, t: World, d: Digest, stage: nat)
    requires Moved(s, j, t) && Wrote(s, d, stage) && stage >= SEALED
    ensures Wrote(t, d, stage)
  {
  }

  lemma OwnedStays(s: World, j: Job, t: World, d: Digest)
    requires Owned(s, d) && Moved(s, j, t) && d in t.records && t.records[d] == s.records[d]
    requires s.attempts[j].recordDropped == t.attempts[j].recordDropped || d.text.receipt.workspace != Some(j)
    ensures Owned(t, d)
  {
  }

  /** What a step leaves as it is besides the other attempts. */
  ghost predicate Framed(s: World, j: Job, t: World)
    requires j in s.attempts
  {
    var stage := s.attempts[j].stage;
    && (t.records == s.records || stage == INPUTS_RECHECKED || stage == RECORD_CREATED)
    && (t.slot == s.slot || t.slot == None || stage == RECORD_WRITTEN || stage == SLOT_CREATED)
    && (t.jobs.Keys == s.jobs.Keys || (stage == CAPTURED && t.jobs.Keys == s.jobs.Keys + {j}) ||
        (stage == SELF_VERIFIED && t.jobs.Keys == s.jobs.Keys - {j}))
    && (stage == SELF_VERIFIED ==> j !in t.jobs)
  }

  lemma PreparesFramed(s: World, j: Job, t: World)
    requires j in s.attempts && j in t.attempts && s.attempts[j].stage < EXECUTED && Prepares(s, j, t)
    ensures Framed(s, j, t)
  {
  }

  lemma PublishesFramed(s: World, site: Site, j: Job, t: World)
    requires j in s.attempts && j in t.attempts && EXECUTED <= s.attempts[j].stage < REPORT_MOVED
    requires Publishes(s, site, j, t)
    ensures Framed(s, j, t)
  {
    hide Seal;
  }

  lemma ChecksFramed(s: World, j: Job, t: World)
    requires j in s.attempts && s.attempts[j].receipt.Some? && REPORT_MOVED <= s.attempts[j].stage < INPUTS_RECHECKED
    requires Checks(s, j, t)
    ensures Framed(s, j, t)
  {
  }

  lemma CertifiesFramed(s: World, j: Job, t: World)
    requires j in s.attempts && s.attempts[j].receipt.Some? && INPUTS_RECHECKED <= s.attempts[j].stage < COMMITTED
    requires Certifies(s, j, t)
    ensures Framed(s, j, t)
  {
  }

  lemma AdvanceFramed(site: Site, s: World, j: Job, t: World)
    requires Advance(s, site, j, t)
    ensures Framed(s, j, t)
  {
    hide Prepares, Publishes, Checks, Certifies, Framed;
    var stage := s.attempts[j].stage;
    if stage < EXECUTED {
      PreparesFramed(s, j, t);
    } else if stage < REPORT_MOVED {
      PublishesFramed(s, site, j, t);
    } else if stage < INPUTS_RECHECKED {
      ChecksFramed(s, j, t);
    } else {
      CertifiesFramed(s, j, t);
    }
  }

  /** Records stay right while an attempt moves without touching its own record. */
  lemma RecordsStay(s: World, j: Job, t: World)
    requires RecordsInv(s) && Moved(s, j, t) && t.records == s.records
    requires t.attempts[j].recordDropped == s.attempts[j].recordDropped
    requires t.attempts[j].stage >= RECORD_CREATED ==> s.attempts[j].stage >= RECORD_CREATED
    requires t.attempts[j].stage >= RECORD_WRITTEN ==> s.attempts[j].stage >= RECORD_WRITTEN
    ensures RecordsInv(t)
  {
  }

  /** Different attempts have different records, as the job is part of the receipt. */
  lemma RecordsDiffer(site: Site, s: World, j: Job, k: Job)
    requires j in s.attempts && k in s.attempts && j != k
    requires AttemptInv(site, j, s.attempts[j]) && AttemptInv(site, k, s.attempts[k])
    requires s.attempts[j].receipt.Some? && s.attempts[k].receipt.Some?
    ensures RecordOf(s.attempts[j]) != RecordOf(s.attempts[k])
  {
  }

  /** Records stay right while an attempt creates, fills or drops its own. */
  lemma OwnRecordChanges(site: Site, s: World, j: Job, t: World)
    requires (forall k :: k in s.attempts ==> AttemptInv(site, k, s.attempts[k])) && RecordsInv(s) && Moved(s, j, t)
    requires s.attempts[j].stage >= SEALED && s.attempts[j].receipt.Some?
    requires forall d :: d != RecordOf(s.attempts[j]) ==>
               (d in t.records <==> d in s.records) && (d in s.records ==> t.records[d] == s.records[d])
    requires RecordOf(s.attempts[j]) in t.records ==> Owned(t, RecordOf(s.attempts[j]))
    requires Kept(t, t.attempts[j])
    ensures RecordsInv(t)
  {
    var own := RecordOf(s.attempts[j]);
    assert AttemptInv(site, j, s.attempts[j]);
    forall d | d in t.records
      ensures Owned(t, d)
    {
      if d != own {
        assert Owned(s, d);
        OwnedStays(s, j, t, d);
      }
    }
    forall k | k in t.attempts
      ensures Kept(t, t.attempts[k])
    {
      if k != j {
        assert Kept(s, s.attempts[k]) && AttemptInv(site, k, s.attempts[k]);
        if s.attempts[k].receipt.Some? {
          RecordsDiffer(site, s, j, k);
        }
      }
    }
  }

  /** Creating a record, or filling it, keeps the registry right. */
  lemma CertifyingKeepsRecords(site: Site, s: World, j: Job, t: World)
    requires Inv(site, s) && Advance(s, site, j, t)
    requires s.attempts[j].stage == INPUTS_RECHECKED || s.attempts[j].stage == RECORD_CREATED
    requires Moved(s, j, t)
    ensures RecordsInv(t)
  {
    hide Prepares, Publishes, Checks;
    assert AttemptInv(site, j, s.attempts[j]);
    assert t.attempts[j].receipt == s.attempts[j].receipt;
    OwnRecordChanges(site, s, j, t);
  }

  lemma AdvanceKeepsRecords(site: Site, s: World, j: Job, t: World)
    requires Inv(site, s) && Advance(s, site, j, t)
    ensures RecordsInv(t)
  {
    assert AttemptInv(site, j, s.attempts[j]);
    AdvanceMoves(site, s, j, t);
    if s.attempts[j].stage == INPUTS_RECHECKED || s.attempts[j].stage == RECORD_CREATED {
      CertifyingKeepsRecords(site, s, j, t);
    } else {
      AdvanceFramed(site, s, j, t);
      hide Prepares, Publishes, Checks, Certifies, AttemptInv;
      RecordsStay(s, j, t);
    }
  }

  lemma AdvanceKeepsSlot(site: Site, s: World, j: Job, t: World)
    requires Inv(site, s) && Advance(s, site, j, t)
    ensures SlotInv(t)
  {
    hide Prepares, Publishes, Checks;
    assert AttemptInv(site, j, s.attempts[j]);
    AdvanceMoves(site, s, j, t);
    AdvanceFramed(site, s, j, t);
    if t.slot.Some? && t.slot.value.names.Some? && t.slot == s.slot {
      MovedKeepsWriters(s, j, t, t.slot.value.names.value, SLOT_WRITTEN);
    }
  }

  lemma AdvanceKeepsJobs(site: Site, s: World, j: Job, t: World)
    requires Inv(site, s) && Advance(s, site, j, t)
    ensures JobsInv(t)
  {
    hide Prepares, Publishes, Checks, Certifies, RecordsInv, SlotInv;
    assert AttemptInv(site, j, s.attempts[j]);
    AdvanceFramed(site, s, j, t);
  }

  lemma AdvanceKeepsInv(site: Site, s: World, j: Job, t: World)
    requires Inv(site, s) && Advance(s, site, j, t)
    ensures Inv(site, t)
  {
    hide Prepares, Publishes, Checks, Certifies, RecordsInv, SlotInv, JobsInv;
    assert AttemptInv(site, j, s.attempts[j]);
    AdvanceMoves(site, s, j, t);
    AdvanceKeepsRecords(site, s, j, t);
    AdvanceKeepsSlot(site, s, j, t);
    AdvanceKeepsJobs(site, s, j, t);
  }

  lemma UnwindMoves(site: Site, s: World, j: Job, t: World)
    requires Unwind(s, j, t) && AttemptInv(site, j, s.attempts[j])
    ensures Moved(s, j, t) && AttemptInv(site, j, t.attempts[j])
    ensures t.attempts[j].stage == s.attempts[j].stage && t.attempts[j].receipt == s.attempts[j].receipt
  {
    assert t.attempts[j].recordDropped && !s.attempts[j].recordDropped ==> s.attempts[j].stage >= RECORD_CREATED;
  }

  /** A guard that removes its record keeps the registry right. */
  lemma DroppingKeepsRecords(site: Site, s: World, j: Job, t: World)
    requires Inv(site, s) && Unwind(s, j, t) && Moved(s, j, t) && AttemptInv(site, j, t.attempts[j])
    requires s.attempts[j].fate == Unwinding(1) && t.attempts[j].recordDropped && t.records != s.records
    ensures RecordsInv(t)
  {
    assert AttemptInv(site, j, s.attempts[j]);
    OwnRecordChanges(site, s, j, t);
  }

  lemma UnwindKeepsRecords(site: Site, s: World, j: Job, t: World)
    requires Inv(site, s) && Unwind(s, j, t)
    ensures RecordsInv(t)
  {
    assert AttemptInv(site, j, s.attempts[j]);
    UnwindMoves(site, s, j, t);
    if t.records != s.records {
      DroppingKeepsRecords(site, s, j, t);
    } else {
      hide AttemptInv;
      RecordsKeptByUnwinding(s, j, t);
    }
  }

  lemma RecordsKeptByUnwinding(s: World, j: Job, t: World)
    requires RecordsInv(s) && Unwind(s, j, t) && Moved(s, j, t) && t.records == s.records
    ensures RecordsInv(t)
  {
    forall d | d in t.records ensures Owned(t, d) {
      assert Owned(s, d);
    }
    forall k | k in t.attempts ensures Kept(t, t.attempts[k]) {
      assert Kept(s, s.attempts[k]);
    }
  }

  lemma UnwindKeepsInv(site: Site, s: World, j: Job, t: World)
    requires Inv(site, s) && Unwind(s, j, t)
    ensures Inv(site, t)
  {
    hide Cleans, RecordsInv;
    assert AttemptInv(site, j, s.attempts[j]);
    UnwindMoves(site, s, j, t);
    UnwindKeepsRecords(site, s, j, t);
    if t.slot.Some? && t.slot.value.names.Some? {
      MovedKeepsWriters(s, j, t, t.slot.value.names.value, SLOT_WRITTEN);
    }
  }

  lemma EndKeepsInv(site: Site, s: World, j: Job, t: World)
    requires Inv(site, s) && (Fail(s, j, t) || Kill(s, j, t))
    ensures Inv(site, t)
  {
    assert AttemptInv(site, j, s.attempts[j]);
    RecordsStay(s, j, t);
    if t.slot.Some? && t.slot.value.names.Some? {
      MovedKeepsWriters(s, j, t, t.slot.value.names.value, SLOT_WRITTEN);
    }
  }

  /** Every step keeps the invariant. */
  lemma NextKeepsInv(site: Site, s: World, t: World)
    requires Inv(site, s) && Next(s, site, t)
    ensures Inv(site, t)
  {
    hide Prepares, Publishes, Checks, Certifies, Cleans;
    if !Interfere(s, t) {
      var j :| Acts(s, site, j, t);
      if Begin(s, j, t) {
        BeginKeepsInv(site, s, j, t);
      } else if Advance(s, site, j, t) {
        AdvanceKeepsInv(site, s, j, t);
      } else if Unwind(s, j, t) {
        UnwindKeepsInv(site, s, j, t);
      } else {
        EndKeepsInv(site, s, j, t);
      }
    }
  }

  lemma BeginKeepsInv(site: Site, s: World, j: Job, t: World)
    requires Inv(site, s) && Begin(s, j, t)
    ensures Inv(site, t)
  {
    forall d | d in t.records
      ensures Owned(t, d)
    {
      assert Owned(s, d);
    }
    forall k | k in t.attempts
      ensures Kept(t, t.attempts[k])
    {
      if k != j {
        assert Kept(s, s.attempts[k]);
      }
    }
  }

  lemma RunKeepsInv(site: Site, run: seq<World>, n: nat)
    requires Run(site, run) && n < |run|
    ensures Inv(site, run[n])
  {
    var holds := (s: World) => Inv(site, s);
    InitialHasInv(site, run[0]);
    forall k | 0 <= k < |run| - 1 && holds(run[k])
      ensures holds(run[k + 1])
    {
      NextKeepsInv(site, run[k], run[k + 1]);
    }
    Runs.AlwaysHolds(run, holds, n);
  }

  lemma InitialHasInv(site: Site, s: World)
    requires Initial(s)
    ensures Inv(site, s)
  {
  }
}
