/** The producer and the reader of evidence as they run, statement by statement, over the files
    they change.  Between any two statements others may edit the checkout, and any operation of
    the system may fail.  Whatever happens, the producer takes only steps of the protocol, so all
    that is proved of its runs holds of this code. */
module EvidenceProducer {
  import opened EvidenceProtocol
  import opened Wrappers

  ghost predicate Path(site: Site, trace: seq<World>) {
    trace != [] && forall i :: 0 <= i < |trace| - 1 ==> Next(trace[i], site, trace[i + 1])
  }

  lemma PathExtends(site: Site, trace: seq<World>, t: World)
    requires Path(site, trace) && Next(trace[|trace| - 1], site, t)
    ensures Path(site, trace + [t])
  {
  }

  /** The commands that a producer is prepared with. */
  datatype Spec = Spec(producer: Producer, prerequisite: Option<seq<string>>, auxiliary: seq<seq<string>>,
                       tokens: seq<string>, partition: Option<string>)

  /** cargo-mutants is always prepared with a test of the whole workspace. */
  predicate Prepared(spec: Spec) {
    spec.producer == CargoMutants ==>
      spec.prerequisite.Some? && "test" in spec.prerequisite.value && "--workspace" in spec.prerequisite.value
  }

  function Commands(spec: Spec): (r: seq<seq<string>>)
    ensures r != []
  {
    (if spec.prerequisite.Some? then [spec.prerequisite.value] else []) + spec.auxiliary + [spec.tokens]
  }

  /** Success, surviving or timed-out mutants of cargo-mutants, surviving mutants of Stryker. */
  predicate EndedWell(producer: Producer, exit: int) {
    match producer
    case CargoMutants => exit == 0 || exit == 2 || exit == 3
    case Stryker => exit == 0 || exit == 1
    case CargoLlvmCov => exit == 0
    case Vitest => exit == 0
    case Pytest => exit == 0
  }

  predicate Passed(producer: Producer, exits: seq<Option<int>>, i: nat)
    requires i < |exits|
  {
    exits[i].Some? && AllowedExit(producer, exits[i].value) && (i < |exits| - 1 ==> exits[i].value == 0)
  }

  predicate AllPassed(producer: Producer, exits: seq<Option<int>>) {
    exits != [] && forall i :: 0 <= i < |exits| ==> Passed(producer, exits, i)
  }

  function ExecutionOf(spec: Spec, version: string, exits: seq<Option<int>>): (e: Execution)
    requires Prepared(spec) && version != "" && AllPassed(spec.producer, exits)
    ensures Completed(e)
  {
    assert Passed(spec.producer, exits, |exits| - 1);
    Execution(spec.producer, version, Commands(spec), exits[|exits| - 1].value, spec.prerequisite.Some?, spec.partition)
  }

  /** Which removals of the guards the system carries out. */
  datatype Removals = Removals(slot: bool, record: bool, receipt: bool)

  /** When the two trees are compared after a command: first the copy, then the checkout. */
  type Moment = (nat, nat)

  ghost predicate SameAt(trace: seq<World>, since: nat, m: Moment, j: Job, before: Snapshot) {
    since <= m.0 < m.1 < |trace| && CopyIs(trace[m.0], j, before) && trace[m.1].inputs == before
  }

  /** Where the command with this number may be compared at the earliest. */
  function Since(since: nat, moments: seq<Moment>, k: nat): nat
    requires k <= |moments|
  {
    if k == 0 then since else moments[k - 1].1 + 1
  }

  /** After each of some commands, one after the other, both trees were found to hold these inputs. */
  ghost predicate SameAfterEach(trace: seq<World>, since: nat, moments: seq<Moment>, j: Job, before: Snapshot) {
    forall k :: 0 <= k < |moments| ==>
      SameAt(trace, Since(since, moments, k), moments[k], j, before)
  }

  lemma OneMoreCommand(was: seq<World>, trace: seq<World>, since: nat, moments: seq<Moment>, m: Moment, j: Job,
                       before: Snapshot)
    requires SameAfterEach(was, since, moments, j, before) && since <= |was| && was <= trace
    requires SameAt(trace, |was|, m, j, before)
    ensures SameAfterEach(trace, since, moments + [m], j, before)
  {
    var all := moments + [m];
    forall k | 0 <= k < |all|
      ensures SameAt(trace, Since(since, all, k), all[k], j, before)
    {
      assert Since(since, all, k) == Since(since, moments, k);
      if k < |moments| {
        assert SameAt(was, Since(since, moments, k), moments[k], j, before);
      } else if k > 0 {
        assert SameAt(was, Since(since, moments, k - 1), moments[k - 1], j, before);
      }
    }
  }

  lemma SameStays(was: seq<World>, trace: seq<World>, since: nat, moments: seq<Moment>, j: Job, before: Snapshot)
    requires SameAfterEach(was, since, moments, j, before) && was <= trace
    ensures SameAfterEach(trace, since, moments, j, before)
  {
    forall k | 0 <= k < |moments|
      ensures SameAt(trace, Since(since, moments, k), moments[k], j, before)
    {
      assert SameAt(was, Since(since, moments, k), moments[k], j, before);
    }
  }

  lemma Unstarted(trace: seq<World>, j: Job, before: Snapshot)
    ensures SameAfterEach(trace, |trace|, [], j, before)
  {
  }

  class Checkout {
    const site: Site
    var report: Option<Text>
    var pending: Option<Text>
    var receipt: Option<Text>
    var inputs: Snapshot
    var slot: Option<Slot>
    var records: map<Digest, Option<Text>>
    var jobs: map<Job, Snapshot>
    /** What each attempt has recorded, and the states so far. */
    ghost var attempts: map<Job, Attempt>
    ghost var trace: seq<World>

    ghost function Value(): World
      reads this
    {
      World(report, pending, receipt, inputs, slot, records, jobs, attempts)
    }

    ghost predicate Valid()
      reads this
    {
      Path(site, trace) && trace[|trace| - 1] == Value()
    }

    ghost predicate At(j: Job, stage: nat)
      reads this
    {
      j in attempts && attempts[j].fate == Running && attempts[j].stage == stage
    }

    constructor (site: Site, inputs: Snapshot)
      ensures Valid() && Run(site, trace) && this.site == site && attempts == map[]
    {
      this.site, this.inputs := site, inputs;
      report, pending, receipt, slot := None, None, None, None;
      records, jobs, attempts := map[], map[], map[];
      trace := [World(None, None, None, inputs, None, map[], map[], map[])];
    }

    ghost method Logged()
      requires Path(site, trace) && Next(trace[|trace| - 1], site, Value())
      modifies this`trace
      ensures Valid() && trace == old(trace) + [Value()]
    {
      PathExtends(site, trace, Value());
      trace := trace + [Value()];
    }

    /** The attempt has completed a step, whose effect on the files is in place. */
    ghost method Done(j: Job, a: Attempt)
      requires Path(site, trace) && Advance(trace[|trace| - 1], site, j, Value().(attempts := attempts[j := a]))
      modifies this`attempts, this`trace
      ensures Valid() && attempts == old(attempts)[j := a] && trace == old(trace) + [Value()]
    {
      attempts := attempts[j := a];
      assert Acts(trace[|trace| - 1], site, j, Value());
      Logged();
    }

    /** Anyone may edit the checkout and the copies and clear away retained jobs at any time. */
    method Others()
      requires Valid()
      modifies this`report, this`pending, this`receipt, this`inputs, this`jobs, this`trace
      ensures Valid() && trace == old(trace) + [Value()] && jobs.Keys <= old(jobs).Keys
    {
      var edited: map<Job, Snapshot> := *;
      report, pending, receipt, inputs := *, *, *, *;
      jobs := map j | j in jobs && j in edited :: edited[j];
      assert Interfere(trace[|trace| - 1], Value());
      Logged();
    }

    // ---------- starting ----------

    method Revoke(j: Job) returns (ok: bool)
      requires Valid() && At(j, STARTED)
      modifies this
      ensures Valid() && old(trace) <= trace
      ensures attempts == if ok then old(attempts)[j := old(attempts[j]).(stage := REVOKED)] else old(attempts)
      ensures ok ==> slot == None
      ensures (!ok ==> slot == old(slot)) && records == old(records)
    {
      Others();
      ok := *;
      if ok {
        slot := None;
        Done(j, attempts[j].(stage := REVOKED));
      }
    }

    method RemoveReceipt(j: Job) returns (ok: bool)
      requires Valid() && At(j, REVOKED)
      modifies this
      ensures Valid() && old(trace) <= trace
      ensures attempts == if ok then old(attempts)[j := old(attempts[j]).(stage := RECEIPT_REMOVED)] else old(attempts)
      ensures ok ==> receipt == None
      ensures slot == old(slot) && records == old(records)
    {
      Others();
      ok := *;
      if ok {
        receipt := None;
        Done(j, attempts[j].(stage := RECEIPT_REMOVED));
      }
    }

    method Capture(j: Job) returns (before: Snapshot, ok: bool)
      requires Valid() && At(j, RECEIPT_REMOVED)
      modifies this
      ensures Valid() && old(trace) <= trace
      ensures attempts == if ok then old(attempts)[j := old(attempts[j]).(stage := CAPTURED, before := before)]
                          else old(attempts)
      ensures ok ==> inputs == before && before != map[]
      ensures slot == old(slot) && records == old(records)
    {
      Others();
      before := inputs;
      ok := *;
      ok := ok && before != map[];
      if ok {
        Done(j, attempts[j].(stage := CAPTURED, before := before));
      }
    }

    /** The job directory with a copy of whatever the checkout held while it was copied. */
    method CreateJob(j: Job) returns (ok: bool)
      requires Valid() && At(j, CAPTURED)
      modifies this
      ensures Valid() && old(trace) <= trace
      ensures attempts == if ok then old(attempts)[j := old(attempts[j]).(stage := JOB_CREATED)] else old(attempts)
      ensures ok ==> j in jobs
      ensures slot == old(slot) && records == old(records)
    {
      Others();
      ok := *;
      if ok {
        var copied: Snapshot := *;
        jobs := jobs[j := copied];
        Done(j, attempts[j].(stage := JOB_CREATED));
      }
    }

    /** The copy is captured and compared, once it is made and again after the last command. */
    method CompareCopy(j: Job, before: Snapshot) returns (ok: bool)
      requires Valid() && (At(j, JOB_CREATED) || At(j, COPIED)) && attempts[j].before == before
      modifies this
      ensures Valid() && old(trace) < trace
      ensures attempts == if ok then old(attempts)[j := old(attempts[j]).(stage := old(attempts[j].stage) + 1)]
                          else old(attempts)
      ensures ok <==> CopyIs(Value(), j, before)
      ensures slot == old(slot) && records == old(records)
    {
      Others();
      ok := j in jobs && jobs[j] == before;
      if ok {
        Done(j, attempts[j].(stage := attempts[j].stage + 1));
      }
    }

    /** The checkout is captured and compared. */
    method CompareCheckout(j: Job, before: Snapshot) returns (ok: bool)
      requires Valid() && At(j, COPY_CHECKED) && attempts[j].before == before
      modifies this
      ensures Valid() && old(trace) <= trace
      ensures attempts == if ok then old(attempts)[j := old(attempts[j]).(stage := COPIED)] else old(attempts)
      ensures ok <==> inputs == before
      ensures slot == old(slot) && records == old(records)
    {
      Others();
      ok := inputs == before;
      if ok {
        Done(j, attempts[j].(stage := COPIED));
      }
    }

    /** The copy or the checkout did not hold these inputs at some moment since. */
    ghost predicate ChangeSeen(since: nat, j: Job, before: Snapshot)
      reads this
    {
      exists k :: since <= k < |trace| && (!CopyIs(trace[k], j, before) || trace[k].inputs != before)
    }

    /** The copy held these inputs at some moment since. */
    ghost predicate CopySeen(since: nat, j: Job, before: Snapshot)
      reads this
    {
      exists k :: since <= k < |trace| && CopyIs(trace[k], j, before)
    }

    /** After each of so many commands since then both trees were found to hold these inputs. */
    ghost predicate SameSince(since: nat, commands: nat, j: Job, before: Snapshot)
      reads this
    {
      exists moments :: |moments| == commands && SameAfterEach(trace, since, moments, j, before)
    }

    /** The copy is compared with the captured inputs and then the checkout. */
    method VerifyCopy(j: Job, before: Snapshot) returns (ok: bool)
      requires Valid() && At(j, JOB_CREATED) && attempts[j].before == before
      modifies this
      ensures Valid() && old(trace) <= trace
      ensures ok ==> attempts == old(attempts)[j := old(attempts[j]).(stage := COPIED)]
      ensures !ok ==> j in attempts && attempts[j] == old(attempts[j]).(stage := attempts[j].stage) &&
                      attempts[j].stage < COPIED
      ensures ok ==> CopySeen(|old(trace)|, j, before) && inputs == before
      ensures slot == old(slot) && records == old(records)
    {
      ok := CompareCopy(j, before);
      if ok {
        assert CopyIs(trace[|trace| - 1], j, before);
        ghost var seen := |trace| - 1;
        ok := CompareCheckout(j, before);
        assert CopyIs(trace[seen], j, before);
      }
    }

    /** One command before the last: it may write anywhere in the copy; the copy and then the checkout
        are compared afterwards, whatever the outcome was. */
    method RunStage(j: Job, before: Snapshot) returns (ok: bool, ghost moment: Moment)
      requires Valid()
      modifies this
      ensures Valid() && old(trace) <= trace && attempts == old(attempts)
      ensures ok ==> SameAt(trace, |old(trace)|, moment, j, before) && inputs == before
      ensures !ok ==> ChangeSeen(|old(trace)|, j, before)
      ensures slot == old(slot) && records == old(records)
    {
      Others();
      ok := j in jobs && jobs[j] == before;
      ghost var seen := |trace| - 1;
      moment := (seen, seen + 1);
      assert CopyIs(trace[seen], j, before) <==> ok;
      if ok {
        Others();
        ok := inputs == before;
        assert CopyIs(trace[seen], j, before);
        assert trace[|trace| - 1].inputs == inputs;
      }
    }

    /** The last command, compared in the same way. */
    method RunLastStage(j: Job, before: Snapshot) returns (ok: bool, ghost moment: Moment)
      requires Valid() && At(j, COPIED) && attempts[j].before == before
      modifies this
      ensures Valid() && old(trace) <= trace
      ensures ok ==> attempts == old(attempts)[j := old(attempts[j]).(stage := RESTORED)]
      ensures !ok ==> j in attempts && attempts[j] == old(attempts[j]).(stage := attempts[j].stage) &&
                      COPIED <= attempts[j].stage <= RESTORED
      ensures ok ==> SameAt(trace, |old(trace)|, moment, j, before) && inputs == before
      ensures !ok ==> ChangeSeen(|old(trace)|, j, before)
      ensures slot == old(slot) && records == old(records)
    {
      ok := CompareCopy(j, before);
      ghost var seen := |trace| - 1;
      moment := (seen, seen + 1);
      assert CopyIs(trace[seen], j, before) <==> ok;
      if ok {
        Others();
        ok := inputs == before;
        assert CopyIs(trace[seen], j, before);
        assert trace[|trace| - 1].inputs == inputs;
      }
    }

    /** The producer's commands in order.  All but the last must exit with zero, the last with an
        exit that the producer allows; `exits` has nothing for a command that did not end by itself. */
    method Execute(j: Job, before: Snapshot, spec: Spec, version: Option<string>, exits: seq<Option<int>>)
      returns (execution: Option<Execution>)
      requires Valid() && At(j, COPIED) && attempts[j].before == before
      requires Prepared(spec) && |exits| == |Commands(spec)|
      modifies this
      ensures Valid() && old(trace) <= trace
      ensures execution.Some? ==> version.Some? && version.value != "" && AllPassed(spec.producer, exits) &&
                                  execution == Some(ExecutionOf(spec, version.value, exits))
      ensures execution.Some? ==>
                attempts == old(attempts)[j := old(attempts[j]).(stage := EXECUTED, execution := execution)]
      ensures execution.None? ==> j in attempts && attempts[j].fate == Running && attempts[j].stage < EXECUTED
      ensures execution.Some? ==> (forall k :: 0 <= k < |exits| - 1 ==> exits[k] == Some(0)) &&
                                  exits[|exits| - 1] == Some(execution.value.exit) &&
                                  EndedWell(spec.producer, execution.value.exit)
      ensures execution.None? ==>
                version.None? || version.value == "" || ChangeSeen(|old(trace)|, j, before) ||
                (exists k :: 0 <= k < |exits| - 1 && exits[k] != Some(0)) ||
                exits[|exits| - 1].None? || !EndedWell(spec.producer, exits[|exits| - 1].value)
      ensures execution.Some? ==> SameSince(|old(trace)|, |exits|, j, before) && inputs == before
      ensures slot == old(slot) && records == old(records)
    {
      if version.None? || version.value == "" {
        return None;
      }
      hide Path, SameAfterEach, SameAt, ChangeSeen;
      var same;
      ghost var moments;
      same, moments := RunAllStages(j, before, spec.producer, exits);
      if !same || !Passed(spec.producer, exits, |exits| - 1) {
        return None;
      }
      execution := Some(ExecutionOf(spec, version.value, exits));
      ghost var compared := trace;
      Complete(j, before, execution.value);
      SameStays(compared, trace, |old(trace)|, moments, j, before);
    }

    /** All commands but for the exit of the last one. */
    method RunAllStages(j: Job, before: Snapshot, producer: Producer, exits: seq<Option<int>>)
      returns (ok: bool, ghost moments: seq<Moment>)
      requires Valid() && At(j, COPIED) && attempts[j].before == before && exits != []
      modifies this
      ensures Valid() && old(trace) <= trace
      ensures ok ==> forall k :: 0 <= k < |exits| - 1 ==> Passed(producer, exits, k) && exits[k] == Some(0)
      ensures ok ==> |moments| == |exits| && SameAfterEach(trace, |old(trace)|, moments, j, before)
      ensures ok ==> attempts == old(attempts)[j := old(attempts[j]).(stage := RESTORED)] && inputs == before
      ensures !ok ==> ChangeSeen(|old(trace)|, j, before) || exists k :: 0 <= k < |exits| - 1 && exits[k] != Some(0)
      ensures !ok ==> j in attempts && attempts[j].fate == Running && attempts[j].stage < EXECUTED
      ensures slot == old(slot) && records == old(records)
    {
      hide Path, SameAfterEach, SameAt, Passed;
      ok, moments := RunEarlierStages(j, before, producer, exits);
      if ok {
        ghost var middle, moment := trace, (0, 0);
        ok, moment := RunLastStage(j, before);
        if ok {
          OneMoreCommand(middle, trace, |old(trace)|, moments, moment, j, before);
          moments := moments + [moment];
        } else {
          SeenSince(|old(trace)|, |middle|, j, before);
        }
      }
    }

    method RunEarlierStages(j: Job, before: Snapshot, producer: Producer, exits: seq<Option<int>>)
      returns (ok: bool, ghost moments: seq<Moment>)
      requires Valid() && exits != []
      modifies this
      ensures Valid() && old(trace) <= trace && attempts == old(attempts)
      ensures ok ==> forall k :: 0 <= k < |exits| - 1 ==> Passed(producer, exits, k) && exits[k] == Some(0)
      ensures ok ==> |moments| == |exits| - 1 && SameAfterEach(trace, |old(trace)|, moments, j, before)
      ensures !ok ==> ChangeSeen(|old(trace)|, j, before) || exists k :: 0 <= k < |exits| - 1 && exits[k] != Some(0)
      ensures slot == old(slot) && records == old(records)
    {
      hide Path, SameAfterEach, SameAt;
      moments := [];
      Unstarted(trace, j, before);
      for i := 0 to |exits| - 1
        invariant |moments| == i && SameAfterEach(trace, |old(trace)|, moments, j, before)
        invariant Valid() && old(trace) <= trace && attempts == old(attempts)
        invariant slot == old(slot) && records == old(records)
        invariant forall k :: 0 <= k < i ==> Passed(producer, exits, k) && exits[k] == Some(0)
      {
        ghost var was, moment := trace, (0, 0);
        ok, moment := RunStage(j, before);
        if !ok {
          SeenSince(|old(trace)|, |was|, j, before);
          return;
        }
        OneMoreCommand(was, trace, |old(trace)|, moments, moment, j, before);
        moments := moments + [moment];
        if !Passed(producer, exits, i) {
          assert exits[i] != Some(0);
          return false, moments;
        }
      }
      return true, moments;
    }

    ghost method SeenSince(since: nat, later: nat, j: Job, before: Snapshot)
      requires since <= later && ChangeSeen(later, j, before)
      ensures ChangeSeen(since, j, before)
    {
      ghost var k :| later <= k < |trace| && (!CopyIs(trace[k], j, before) || trace[k].inputs != before);
      assert since <= k < |trace|;
    }

    /** The execution is recorded. */
    ghost method Complete(j: Job, before: Snapshot, execution: Execution)
      requires Valid() && At(j, RESTORED) && attempts[j].before == before && inputs == before && Completed(execution)
      modifies this`attempts, this`trace
      ensures Valid() && old(trace) <= trace
      ensures attempts == old(attempts)[j := old(attempts[j]).(stage := EXECUTED, execution := Some(execution))]
    {
      Done(j, attempts[j].(stage := EXECUTED, execution := Some(execution)));
    }

    // ---------- publishing ----------

    method BeginPublication(j: Job) returns (ok: bool)
      requires Valid() && At(j, EXECUTED)
      modifies this
      ensures Valid() && old(trace) <= trace
      ensures attempts == if ok then old(attempts)[j := old(attempts[j]).(stage := PUBLISHING)] else old(attempts)
      ensures slot == old(slot) && records == old(records)
    {
      Others();
      ok := *;
      if ok {
        Done(j, attempts[j].(stage := PUBLISHING));
      }
    }

    method WritePending(j: Job, bytes: Text) returns (ok: bool)
      requires Valid() && At(j, PUBLISHING)
      modifies this
      ensures Valid() && old(trace) <= trace
      ensures attempts ==
              if ok then old(attempts)[j := old(attempts[j]).(stage := PENDING_WRITTEN, produced := Some(bytes))]
              else old(attempts)
      ensures ok ==> pending == Some(bytes)
      ensures slot == old(slot) && records == old(records)
    {
      Others();
      ok := *;
      if ok {
        pending := Some(bytes);
        Done(j, attempts[j].(stage := PENDING_WRITTEN, produced := Some(bytes)));
      }
    }

    method Validate(j: Job, before: Snapshot, execution: Execution) returns (ok: bool)
      requires Valid() && At(j, PENDING_WRITTEN) && attempts[j].before == before &&
               attempts[j].execution == Some(execution)
      modifies this
      ensures Valid() && old(trace) <= trace
      ensures attempts == if ok then old(attempts)[j := old(attempts[j]).(stage := VALIDATED)] else old(attempts)
      ensures ok ==> pending.Some? && site.valid(execution.producer, execution.partition, pending.value, before)
      ensures slot == old(slot) && records == old(records)
    {
      Others();
      ok := pending.Some? && site.valid(execution.producer, execution.partition, pending.value, before);
      if ok {
        Done(j, attempts[j].(stage := VALIDATED));
      }
    }

    method MakeReceipt(j: Job, before: Snapshot, execution: Execution) returns (made: Option<Receipt>)
      requires Valid() && At(j, VALIDATED) && attempts[j].before == before && attempts[j].execution == Some(execution)
      modifies this
      ensures Valid() && old(trace) <= trace
      ensures made.Some? ==> pending.Some? && made.value.reportHash == Sha256(pending.value)
      ensures attempts == if made.Some? then old(attempts)[j := old(attempts[j]).(stage := SEALED, receipt := made)]
                          else old(attempts)
      ensures slot == old(slot) && records == old(records)
      ensures made.Some? ==> made.value.execution == execution && made.value.inputs == before
    {
      Others();
      if pending.None? {
        return None;
      }
      made := Some(Receipt(2, site.root, execution, before, Sha256(pending.value), true, Some(j)));
      Done(j, attempts[j].(stage := SEALED, receipt := made));
    }

    /** The checkout's inputs are compared once before and once after the report is published. */
    method RequireSame(j: Job, before: Snapshot) returns (ok: bool)
      requires Valid() && (At(j, SEALED) || (At(j, READ_BACK) && attempts[j].receipt.Some?)) &&
               attempts[j].before == before
      modifies this
      ensures Valid() && old(trace) <= trace
      ensures attempts == if ok then old(attempts)[j := old(attempts[j]).(stage := old(attempts[j].stage) + 1)]
                          else old(attempts)
      ensures ok ==> inputs == before
      ensures slot == old(slot) && records == old(records)
    {
      Others();
      ok := inputs == before;
      if ok {
        Done(j, attempts[j].(stage := attempts[j].stage + 1));
      }
    }

    method RenameReport(j: Job) returns (ok: bool)
      requires Valid() && At(j, INPUTS_CHECKED)
      modifies this
      ensures Valid() && old(trace) <= trace
      ensures attempts == if ok then old(attempts)[j := old(attempts[j]).(stage := REPORT_MOVED)] else old(attempts)
      ensures ok ==> report.Some? && pending == None
      ensures slot == old(slot) && records == old(records)
    {
      Others();
      ok := *;
      ok := ok && pending.Some?;
      if ok {
        report, pending := pending, None;
        Done(j, attempts[j].(stage := REPORT_MOVED));
      }
    }

    method WriteReceipt(j: Job, r: Receipt) returns (ok: bool)
      requires Valid() && At(j, REPORT_MOVED) && attempts[j].receipt == Some(r)
      modifies this
      ensures Valid() && old(trace) <= trace
      ensures attempts == if ok then old(attempts)[j := old(attempts[j]).(stage := RECEIPT_WRITTEN)] else old(attempts)
      ensures ok ==> receipt == Some(Sealed(r))
      ensures slot == old(slot) && records == old(records)
    {
      Others();
      ok := *;
      if ok {
        receipt := Some(Sealed(r));
        Done(j, attempts[j].(stage := RECEIPT_WRITTEN));
      }
    }

    method CheckHash(j: Job, r: Receipt) returns (ok: bool)
      requires Valid() && At(j, RECEIPT_WRITTEN) && attempts[j].receipt == Some(r)
      modifies this
      ensures Valid() && old(trace) <= trace
      ensures attempts == if ok then old(attempts)[j := old(attempts[j]).(stage := HASH_CHECKED)] else old(attempts)
      ensures ok ==> report.Some? && Sha256(report.value) == r.reportHash
      ensures slot == old(slot) && records == old(records)
    {
      Others();
      ok := report.Some? && Sha256(report.value) == r.reportHash;
      if ok {
        Done(j, attempts[j].(stage := HASH_CHECKED));
      }
    }

    method ReadBack(j: Job, r: Receipt) returns (ok: bool)
      requires Valid() && At(j, HASH_CHECKED) && attempts[j].receipt == Some(r)
      modifies this
      ensures Valid() && old(trace) < trace
      ensures attempts == if ok then old(attempts)[j := old(attempts[j]).(stage := READ_BACK)] else old(attempts)
      ensures ok ==> receipt == Some(Sealed(r))
      ensures slot == old(slot) && records == old(records)
    {
      Others();
      ok := receipt == Some(Sealed(r));
      if ok {
        Done(j, attempts[j].(stage := READ_BACK));
      }
    }

    // ---------- certifying ----------

    /** The record is created anew under the digest of the receipt's bytes, then written. */
    method CreateRecord(j: Job, r: Receipt) returns (ok: bool)
      requires Valid() && At(j, INPUTS_RECHECKED) && attempts[j].receipt == Some(r)
      modifies this
      ensures Valid() && old(trace) <= trace
      ensures attempts == if ok then old(attempts)[j := old(attempts[j]).(stage := RECORD_CREATED)] else old(attempts)
      ensures slot == old(slot) && (ok ==> Sha256(Sealed(r)) !in old(records))
      ensures records == if ok then old(records)[Sha256(Sealed(r)) := None] else old(records)
    {
      Others();
      ok := *;
      ok := ok && Sha256(Sealed(r)) !in records;
      if ok {
        records := records[Sha256(Sealed(r)) := None];
        Done(j, attempts[j].(stage := RECORD_CREATED));
      }
    }

    method WriteRecord(j: Job, r: Receipt) returns (ok: bool)
      requires Valid() && At(j, RECORD_CREATED) && attempts[j].receipt == Some(r)
      modifies this
      ensures Valid() && old(trace) <= trace
      ensures attempts == if ok then old(attempts)[j := old(attempts[j]).(stage := RECORD_WRITTEN)] else old(attempts)
      ensures slot == old(slot)
      ensures records == if ok then old(records)[Sha256(Sealed(r)) := Some(Sealed(r))] else old(records)
    {
      Others();
      ok := *;
      if ok {
        records := records[Sha256(Sealed(r)) := Some(Sealed(r))];
        Done(j, attempts[j].(stage := RECORD_WRITTEN));
      }
    }

    method CreateSlot(j: Job, r: Receipt) returns (ok: bool)
      requires Valid() && At(j, RECORD_WRITTEN) && attempts[j].receipt == Some(r)
      modifies this
      ensures Valid() && old(trace) <= trace
      ensures attempts == if ok then old(attempts)[j := old(attempts[j]).(stage := SLOT_CREATED)] else old(attempts)
      ensures records == old(records) && (ok ==> old(slot) == None)
      ensures slot == if ok then Some(Slot(j, None)) else old(slot)
    {
      Others();
      ok := *;
      ok := ok && slot == None;
      if ok {
        slot := Some(Slot(j, None));
        Done(j, attempts[j].(stage := SLOT_CREATED));
      }
    }

    method WriteSlot(j: Job, r: Receipt) returns (ok: bool)
      requires Valid() && At(j, SLOT_CREATED) && attempts[j].receipt == Some(r)
      modifies this
      ensures Valid() && old(trace) <= trace
      ensures attempts == if ok then old(attempts)[j := old(attempts[j]).(stage := SLOT_WRITTEN)] else old(attempts)
      ensures records == old(records)
      ensures slot == if ok then WrittenSlot(old(slot), j, Sha256(Sealed(r))) else old(slot)
    {
      Others();
      ok := *;
      if ok {
        if slot.Some? && slot.value.owner == j {
          slot := Some(Slot(j, Some(Sha256(Sealed(r)))));
        }
        Done(j, attempts[j].(stage := SLOT_WRITTEN));
      }
    }

    method VerifyOwn(j: Job, r: Receipt) returns (ok: bool)
      requires Valid() && At(j, SLOT_WRITTEN) && attempts[j].receipt == Some(r)
      modifies this
      ensures Valid() && old(trace) <= trace
      ensures ok ==> attempts == old(attempts)[j := old(attempts[j]).(stage := SELF_VERIFIED)]
      ensures !ok ==> j in attempts && attempts[j] == old(attempts[j]).(stage := attempts[j].stage) &&
                      SLOT_WRITTEN <= attempts[j].stage < SELF_VERIFIED
      ensures slot == old(slot) && records == old(records)
      ensures ok ==> Named(slot, Sealed(r)) && Held(records, Sealed(r))
    {
      Others();
      ok := Named(slot, Sealed(r));
      if ok {
        Done(j, attempts[j].(stage := SLOT_READ));
        Others();
        ok := Held(records, Sealed(r));
      }
      if ok {
        Done(j, attempts[j].(stage := SELF_VERIFIED));
      }
    }

    // ---------- finishing ----------

    method CloseWorkspace(j: Job) returns (ok: bool)
      requires Valid() && At(j, SELF_VERIFIED) && attempts[j].receipt.Some?
      modifies this
      ensures Valid() && old(trace) <= trace
      ensures attempts == if ok then old(attempts)[j := old(attempts[j]).(stage := JOB_REMOVED)] else old(attempts)
      ensures (ok ==> j !in jobs) && slot == old(slot) && records == old(records)
    {
      Others();
      ok := *;
      if ok {
        jobs := jobs - {j};
        Done(j, attempts[j].(stage := JOB_REMOVED));
      }
    }

    method Commit(j: Job) returns (ok: bool)
      requires Valid() && At(j, JOB_REMOVED) && attempts[j].receipt.Some?
      modifies this
      ensures Valid() && old(trace) <= trace
      ensures attempts == if ok then old(attempts)[j := old(attempts[j]).(stage := COMMITTED)] else old(attempts)
      ensures jobs.Keys <= old(jobs).Keys && slot == old(slot) && records == old(records)
    {
      Others();
      ok := *;
      if ok {
        Done(j, attempts[j].(stage := COMMITTED));
      }
    }

    /** An error starts to leave through the guards. */
    ghost method StartUnwinding(j: Job)
      requires Valid() && j in attempts && attempts[j].fate == Running && attempts[j].stage < COMMITTED
      modifies this`attempts, this`trace
      ensures Valid() && old(trace) <= trace
      ensures attempts == old(attempts)[j := old(attempts[j]).(fate := Unwinding(0))]
    {
      attempts := attempts[j := attempts[j].(fate := Unwinding(0))];
      assert Acts(trace[|trace| - 1], site, j, Value());
      Logged();
    }

    /** One effect of the guards is over. */
    ghost method Dropped(j: Job, a: Attempt)
      requires Path(site, trace) && Unwind(trace[|trace| - 1], j, Value().(attempts := attempts[j := a]))
      modifies this`attempts, this`trace
      ensures Valid() && attempts == old(attempts)[j := a] && trace == old(trace) + [Value()]
    {
      attempts := attempts[j := a];
      assert Acts(trace[|trace| - 1], site, j, Value());
      Logged();
    }

    method DropSlot(j: Job, guarded: bool, removed: bool)
      requires Valid() && j in attempts && attempts[j].fate == Unwinding(0)
      requires guarded ==> attempts[j].stage >= RECORD_CREATED
      modifies this
      ensures Valid() && old(trace) <= trace
      ensures attempts == old(attempts)[j := old(attempts[j]).(fate := Unwinding(1))]
      ensures slot == (if guarded && removed then None else old(slot)) && records == old(records)
    {
      Others();
      if guarded && removed {
        slot := None;
      }
      Dropped(j, attempts[j].(fate := Unwinding(1)));
    }

    method DropRecord(j: Job, record: Option<Digest>, removed: bool)
      requires Valid() && j in attempts && attempts[j].fate == Unwinding(1)
      requires record.Some? ==>
               attempts[j].stage >= RECORD_CREATED && attempts[j].receipt.Some? && record.value == RecordOf(attempts[j])
      modifies this
      ensures Valid() && old(trace) <= trace
      ensures attempts ==
              old(attempts)[j := old(attempts[j]).(fate := Unwinding(2),
                                                   recordDropped := old(attempts[j]).recordDropped ||
                                                                    (record.Some? && removed))]
      ensures records == (if record.Some? && removed then old(records) - {record.value} else old(records))
      ensures slot == old(slot)
    {
      Others();
      if record.Some? && removed {
        records := records - {record.value};
        Dropped(j, attempts[j].(fate := Unwinding(2), recordDropped := true));
      } else {
        Dropped(j, attempts[j].(fate := Unwinding(2)));
      }
    }

    method DropReceipt(j: Job, published: bool, removed: bool)
      requires Valid() && j in attempts && attempts[j].fate == Unwinding(2)
      requires published ==> attempts[j].stage >= REPORT_MOVED
      modifies this
      ensures Valid() && old(trace) <= trace
      ensures attempts == old(attempts)[j := old(attempts[j]).(fate := Failed)]
      ensures published && removed ==> receipt == None
      ensures slot == old(slot) && records == old(records)
    {
      Others();
      if published && removed {
        receipt := None;
      }
      Dropped(j, attempts[j].(fate := Unwinding(3)));
      Dropped(j, attempts[j].(fate := Failed));
    }

    /** The certification removes slot and record, then the pending receipt removes the receipt.
        Each removal may fail. */
    method DropGuards(j: Job, record: Option<Digest>, published: bool, removals: Removals)
      requires Valid() && j in attempts && attempts[j].fate == Running && attempts[j].stage < COMMITTED
      requires record.Some? ==>
               attempts[j].stage >= RECORD_CREATED && attempts[j].receipt.Some? && record.value == RecordOf(attempts[j])
      requires published ==> attempts[j].stage >= REPORT_MOVED
      modifies this
      ensures Valid() && old(trace) <= trace
      ensures j in attempts && attempts[j].fate == Failed && attempts[j].stage == old(attempts[j].stage)
      ensures slot == if record.Some? && removals.slot then None else old(slot)
      ensures records == if record.Some? && removals.record then old(records) - {record.value} else old(records)
      ensures published && removals.receipt ==> receipt == None
    {
      StartUnwinding(j);
      DropSlot(j, record.Some?, removals.slot);
      DropRecord(j, record, removals.record);
      DropReceipt(j, published, removals.receipt);
    }

    // ---------- the operations ----------

    method Prepare(j: Job) returns (before: Snapshot, ok: bool)
      requires Valid() && At(j, STARTED)
      modifies this
      ensures Valid() && old(trace) <= trace
      ensures ok ==> At(j, COPIED) && attempts[j].before == before
      ensures ok ==> before != map[] && inputs == before && CopySeen(|old(trace)|, j, before)
      ensures ok ==> slot == None
      ensures (slot == None || slot == old(slot)) && records == old(records)
      ensures !ok ==> j in attempts && attempts[j].fate == Running && attempts[j].stage < COPIED
    {
      before := map[];
      ok := Revoke(j);
      if ok {
        ok := RemoveReceipt(j);
      }
      if ok {
        before, ok := Capture(j);
      }
      if ok {
        ok := CreateJob(j);
      }
      if ok {
        ok := VerifyCopy(j, before);
      }
    }

    /** The report is written and the receipt made from what the pending file then holds. */
    method MakePending(j: Job, before: Snapshot, execution: Execution, bytes: Text) returns (made: Option<Receipt>)
      requires Valid() && At(j, EXECUTED) && attempts[j].before == before && attempts[j].execution == Some(execution)
      modifies this
      ensures Valid() && old(trace) <= trace
      ensures made.Some? ==> At(j, SEALED) && attempts[j].receipt == made && attempts[j].before == before
      ensures made.Some? ==> attempts[j].produced == Some(bytes)
      ensures made.Some? ==> pending.Some? && made.value.reportHash == Sha256(pending.value)
      ensures made.Some? ==> made.value.execution == execution && made.value.inputs == before
      ensures slot == old(slot) && records == old(records)
      ensures made.None? ==> j in attempts && attempts[j].fate == Running && attempts[j].stage < SEALED
    {
      var ok := BeginPublication(j);
      if ok {
        ok := WritePending(j, bytes);
      }
      if ok {
        ok := Validate(j, before, execution);
      }
      if ok {
        made := MakeReceipt(j, before, execution);
      } else {
        made := None;
      }
    }

    /** Since then the published report had the receipt's hash and later the receipt's bytes were found. */
    ghost predicate PublishedSince(since: nat, r: Receipt)
      reads this
    {
      exists h, b :: since <= h < b < |trace| && trace[h].report.Some? &&
                     Sha256(trace[h].report.value) == r.reportHash && trace[b].receipt == Some(Sealed(r))
    }

    method PublishFiles(j: Job, r: Receipt, before: Snapshot) returns (ok: bool, moved: bool)
      requires Valid() && At(j, SEALED) && attempts[j].receipt == Some(r) && attempts[j].before == before
      modifies this
      ensures Valid() && old(trace) <= trace
      ensures j in attempts && attempts[j].receipt == Some(r)
      ensures ok ==> At(j, INPUTS_RECHECKED) && moved && inputs == before && PublishedSince(|old(trace)|, r)
      ensures !ok ==> attempts[j].fate == Running && attempts[j].stage < INPUTS_RECHECKED
      ensures moved ==> attempts[j].stage >= REPORT_MOVED
      ensures slot == old(slot) && records == old(records)
    {
      hide Path, PublishedSince;
      moved := false;
      ok := RequireSame(j, before);
      if ok {
        ok := RenameReport(j);
        moved := ok;
      }
      if ok {
        ok := CheckPublished(j, r);
      }
      if ok {
        ok := Recheck(j, r, before);
      }
    }

    /** The inputs are compared once more; what was seen before stays seen. */
    method Recheck(j: Job, r: Receipt, before: Snapshot) returns (ok: bool)
      requires Valid() && At(j, READ_BACK) && attempts[j].receipt == Some(r) && attempts[j].before == before
      modifies this
      ensures Valid() && old(trace) <= trace
      ensures attempts == if ok then old(attempts)[j := old(attempts[j]).(stage := INPUTS_RECHECKED)]
                          else old(attempts)
      ensures (ok ==> inputs == before) && slot == old(slot) && records == old(records)
      ensures forall since :: old(PublishedSince(since, r)) ==> PublishedSince(since, r)
    {
      hide Path;
      ghost var was := trace;
      ok := RequireSame(j, before);
      assert forall k :: 0 <= k < |was| ==> trace[k] == was[k];
    }

    /** The receipt is written, the report's hash taken, and the receipt read back. */
    method CheckPublished(j: Job, r: Receipt) returns (ok: bool)
      requires Valid() && At(j, REPORT_MOVED) && attempts[j].receipt == Some(r)
      modifies this
      ensures Valid() && old(trace) <= trace
      ensures j in attempts && attempts[j] == old(attempts[j]).(stage := attempts[j].stage)
      ensures attempts[j].stage >= REPORT_MOVED
      ensures if ok then attempts[j].stage == READ_BACK else attempts[j].stage < READ_BACK
      ensures ok ==> forall since: nat :: since <= |old(trace)| ==> PublishedSince(since, r)
      ensures slot == old(slot) && records == old(records)
    {
      hide Path;
      ok := WriteReceipt(j, r);
      if ok {
        ok := CheckHash(j, r);
      }
      if ok {
        ghost var h := |trace| - 1;
        assert trace[h].report.Some? && Sha256(trace[h].report.value) == r.reportHash;
        ok := ReadBack(j, r);
        assert trace[h].report.Some? && Sha256(trace[h].report.value) == r.reportHash;
        assert trace[|trace| - 1] == Value();
      }
    }

    /** What the registry holds once a receipt is certified. */
    ghost predicate RegistryHas(j: Job, r: Receipt)
      reads this
    {
      slot == Some(Slot(j, Some(Sha256(Sealed(r))))) && Held(records, Sealed(r))
    }

    method Certify(j: Job, r: Receipt) returns (ok: bool, guarded: bool)
      requires Valid() && At(j, INPUTS_RECHECKED) && attempts[j].receipt == Some(r)
      modifies this
      ensures Valid() && old(trace) <= trace
      ensures j in attempts && attempts[j].receipt == Some(r)
      ensures ok ==> At(j, SELF_VERIFIED) && guarded
      ensures guarded ==> Sha256(Sealed(r)) !in old(records) && records - {Sha256(Sealed(r))} == old(records)
      ensures !guarded ==> records == old(records) && slot == old(slot)
      ensures ok ==> old(slot) == None && slot == Some(Slot(j, Some(Sha256(Sealed(r)))))
      ensures ok ==> records == old(records)[Sha256(Sealed(r)) := Some(Sealed(r))]
      ensures !ok ==> attempts[j].fate == Running && INPUTS_RECHECKED <= attempts[j].stage < SELF_VERIFIED
      ensures guarded ==> attempts[j].stage >= RECORD_CREATED
    {
      hide Path;
      ok, guarded := SaveRecord(j, r);
      if ok {
        ok := MarkSlot(j, r);
      }
    }

    /** The record is created anew and written. */
    method SaveRecord(j: Job, r: Receipt) returns (ok: bool, guarded: bool)
      requires Valid() && At(j, INPUTS_RECHECKED) && attempts[j].receipt == Some(r)
      modifies this
      ensures Valid() && old(trace) <= trace
      ensures j in attempts && attempts[j] == old(attempts[j]).(stage := attempts[j].stage)
      ensures ok ==> attempts[j].stage == RECORD_WRITTEN && guarded
      ensures !ok ==> attempts[j].stage == if guarded then RECORD_CREATED else INPUTS_RECHECKED
      ensures guarded ==> Sha256(Sealed(r)) !in old(records) && records - {Sha256(Sealed(r))} == old(records)
      ensures !guarded ==> records == old(records)
      ensures ok ==> records == old(records)[Sha256(Sealed(r)) := Some(Sealed(r))]
      ensures slot == old(slot)
    {
      hide Path;
      ok := CreateRecord(j, r);
      guarded := ok;
      if ok {
        ok := WriteRecord(j, r);
      }
    }

    /** The slot is created anew, the digest written, and both files read back. */
    method MarkSlot(j: Job, r: Receipt) returns (ok: bool)
      requires Valid() && At(j, RECORD_WRITTEN) && attempts[j].receipt == Some(r)
      modifies this
      ensures Valid() && old(trace) <= trace
      ensures j in attempts && attempts[j] == old(attempts[j]).(stage := attempts[j].stage)
      ensures if ok then attempts[j].stage == SELF_VERIFIED else RECORD_WRITTEN <= attempts[j].stage < SELF_VERIFIED
      ensures ok ==> old(slot) == None && slot == Some(Slot(j, Some(Sha256(Sealed(r)))))
      ensures records == old(records)
    {
      hide Path;
      ok := CreateSlot(j, r);
      if ok {
        ok := WriteSlot(j, r);
      }
      if ok {
        ok := VerifyOwn(j, r);
      }
    }

    /** Publish the files, certify the receipt, remove the job, and only then commit; on an error
        the guards created so far run. */
    method SaveVerified(j: Job, r: Receipt, before: Snapshot, removals: Removals) returns (ok: bool)
      requires Valid() && At(j, SEALED) && attempts[j].receipt == Some(r) && attempts[j].before == before
      modifies this
      ensures Valid() && old(trace) <= trace
      ensures ok ==> At(j, COMMITTED) && attempts[j].receipt == Some(r)
      ensures ok ==> RegistryHas(j, r) && j !in jobs
      ensures !ok ==> j in attempts && attempts[j].fate == Failed
      ensures !ok && removals.slot ==> slot == None || slot == old(slot)
      ensures !ok && removals.record ==> records == old(records)
    {
      hide Path;
      var moved, guarded := false, false;
      ok, moved := PublishFiles(j, r, before);
      if ok {
        ok, guarded := Certify(j, r);
      }
      if ok {
        ok := CloseWorkspace(j);
      }
      if ok {
        ok := Commit(j);
      }
      if !ok {
        DropGuards(j, if guarded then Some(Sha256(Sealed(r))) else None, moved, removals);
      }
    }

    /** One attempt.  It ends committed or failed with its guards run, and every state on the way
        follows from the one before by a step of the protocol. */
    method Produce(j: Job, spec: Spec, version: Option<string>, exits: seq<Option<int>>, bytes: Text,
                   removals: Removals)
      returns (ok: bool)
      requires Valid() && j !in attempts && j !in jobs
      requires Prepared(spec) && |exits| == |Commands(spec)|
      modifies this
      ensures Valid() && old(trace) <= trace
      ensures ok ==> At(j, COMMITTED) && version.Some? && version.value != "" && AllPassed(spec.producer, exits)
      ensures ok ==> attempts[j].receipt.Some? && RegistryHas(j, attempts[j].receipt.value) && j !in jobs
      ensures ok ==> attempts[j].receipt.value.execution == ExecutionOf(spec, version.value, exits)
      ensures ok ==> (forall k :: 0 <= k < |exits| - 1 ==> exits[k] == Some(0)) && exits[|exits| - 1].Some? &&
                     EndedWell(spec.producer, exits[|exits| - 1].value)
      ensures !ok ==> j in attempts && attempts[j].fate == Failed
      ensures !ok && removals.slot ==> slot == None || slot == old(slot)
      ensures !ok && removals.record ==> records == old(records)
      ensures Run(site, old(trace)) ==> Run(site, trace)
    {
      Enter(j);
      var before;
      before, ok := Prepare(j);
      if ok {
        var execution := Execute(j, before, spec, version, exits);
        if execution.Some? {
          ok := Publish(j, before, execution.value, bytes, removals);
          return;
        }
        ok := false;
      }
      DropGuards(j, None, false, removals);
    }

    ghost method Enter(j: Job)
      requires Valid() && j !in attempts && j !in jobs
      modifies this`attempts, this`trace
      ensures Valid() && old(trace) <= trace && At(j, STARTED)
    {
      attempts := attempts[j := NEW_ATTEMPT];
      assert Acts(trace[|trace| - 1], site, j, Value());
      Logged();
    }

    method Publish(j: Job, before: Snapshot, execution: Execution, bytes: Text, removals: Removals) returns (ok: bool)
      requires Valid() && At(j, EXECUTED) && attempts[j].before == before && attempts[j].execution == Some(execution)
      modifies this
      ensures Valid() && old(trace) <= trace
      ensures ok ==> At(j, COMMITTED)
      ensures ok ==> attempts[j].receipt.Some? && RegistryHas(j, attempts[j].receipt.value) && j !in jobs
      ensures ok ==> attempts[j].receipt.value.execution == execution
      ensures !ok ==> j in attempts && attempts[j].fate == Failed
      ensures !ok && removals.slot ==> slot == None || slot == old(slot)
      ensures !ok && removals.record ==> records == old(records)
    {
      hide Path;
      var made := MakePending(j, before, execution, bytes);
      if made.Some? {
        ok := SaveVerified(j, made.value, before, removals);
      } else {
        ok := false;
        DropGuards(j, None, false, removals);
      }
    }

    /** What the registry says of some receipt bytes: the slot is read, and then the record. */
    method VerifyRegistry(bytes: Text) returns (ok: bool, ghost slotAt: nat, ghost recordAt: nat)
      requires Valid()
      modifies this
      ensures Valid() && old(trace) < trace && attempts == old(attempts)
      ensures |old(trace)| <= slotAt <= recordAt < |trace|
      ensures ok <==> Named(trace[slotAt].slot, bytes) && Held(trace[recordAt].records, bytes)
    {
      Others();
      slotAt, recordAt := |trace| - 1, |trace| - 1;
      ok := Named(slot, bytes);
      if ok {
        Others();
        recordAt := |trace| - 1;
        ok := Held(records, bytes);
      }
    }

    /** What is left of the job, and what the checkout holds: the report's hash, the inputs, and the
        report's content. */
    method VerifyCheckout(r: Receipt)
      returns (ok: bool, ghost jobAt: nat, ghost hashAt: nat, ghost inputsAt: nat, ghost contentAt: nat)
      requires Valid()
      modifies this
      ensures Valid() && old(trace) < trace && attempts == old(attempts)
      ensures |old(trace)| <= jobAt <= hashAt <= inputsAt <= contentAt < |trace|
      ensures ok <==> JobGone(r, trace[jobAt].jobs) && HashIs(trace[hashAt].report, r) &&
                      trace[inputsAt].inputs == r.inputs && ContentIsValid(trace[contentAt].report, r, site)
    {
      Others();
      jobAt, hashAt, inputsAt, contentAt := |trace| - 1, |trace| - 1, |trace| - 1, |trace| - 1;
      ok := JobGone(r, jobs);
      if ok {
        Others();
        hashAt, inputsAt, contentAt := |trace| - 1, |trace| - 1, |trace| - 1;
        ok := HashIs(report, r);
      }
      if ok {
        Others();
        inputsAt, contentAt := |trace| - 1, |trace| - 1;
        ok := inputs == r.inputs;
      }
      if ok {
        Others();
        contentAt := |trace| - 1;
        ok := ContentIsValid(report, r, site);
      }
    }

    /** The reader's chain of checks, with edits by others between any two of its reads.  It accepts
        exactly what is acceptable at the moments of its reads. */
    method Verify(kind: Kind) returns (ok: bool, ghost at: Reading)
      requires Valid()
      modifies this
      ensures Valid() && old(trace) <= trace && attempts == old(attempts)
      ensures Orderly(at, |old(trace)| - 1, |trace|)
      ensures ok <==> AcceptsOver(trace, at, site, kind)
    {
      at := AtOnce(|trace| - 1);
      hide Path, Named, Held, Proper, JobGone, HashIs, ContentIsValid;
      if receipt.None? {
        return false, at;
      }
      var bytes := receipt.value;
      ghost var slotAt, recordAt;
      ok, slotAt, recordAt := VerifyRegistry(bytes);
      at := Reading(at.receipt, slotAt, recordAt, recordAt, recordAt, recordAt, recordAt);
      if !ok || !bytes.Sealed? || !Proper(bytes.receipt, site, kind) {
        return false, at;
      }
      ghost var jobAt, hashAt, inputsAt, contentAt;
      ok, jobAt, hashAt, inputsAt, contentAt := VerifyCheckout(bytes.receipt);
      at := Reading(at.receipt, slotAt, recordAt, jobAt, hashAt, inputsAt, contentAt);
    }
  }
}
