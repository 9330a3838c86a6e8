/** What accepted evidence says, in plain terms: which producers serve which kind, how they may have ended,
    and what the files held when the reader looked. */
module EvidenceMeaning {
  import opened EvidenceProtocol
  import opened EvidenceProducer
  import opened Wrappers

  predicate Serves(producer: Producer, kind: Kind) {
    match producer
    case CargoLlvmCov => kind == Coverage
    case Vitest => kind == Coverage
    case Pytest => kind == Coverage
    case CargoMutants => kind == Mutation
    case Stryker => kind == Mutation
  }

  /** The first command of a cargo-mutants run was a test of the whole workspace, and it passed. */
  predicate WithBaseline(e: Execution) {
    e.prerequisitePassed && |e.command| >= 2 && "test" in e.command[0] && "--workspace" in e.command[0]
  }

  /** A reader accepts evidence exactly when, as it looks: the receipt is one for this checkout, whose bytes
      the slot names and the record holds; its producer serves the kind, has a version and commands, ended
      well and, for cargo-mutants, after its baseline; no job is left; the report has the receipt's hash; the
      inputs are the receipt's; and the report is valid for them. */
  lemma AcceptanceTells(run: seq<World>, at: Reading, site: Site, kind: Kind)
    requires Orderly(at, 0, |run|)
    ensures AcceptsOver(run, at, site, kind) <==>
            && run[at.receipt].receipt.Some? && run[at.receipt].receipt.value.Sealed?
            && var r := run[at.receipt].receipt.value.receipt;
            && (exists owner :: run[at.slot].slot == Some(Slot(owner, Some(Sha256(Sealed(r))))))
            && Sha256(Sealed(r)) in run[at.record].records
            && run[at.record].records[Sha256(Sealed(r))] == Some(Sealed(r))
            && r.schemaVersion == 2 && r.root == site.root && r.restorationVerified
            && var e := r.execution;
            && Serves(e.producer, kind) && e.version != "" && e.command != [] && EndedWell(e.producer, e.exit)
            && (e.producer == CargoMutants ==> WithBaseline(e))
            && (forall j :: r.workspace == Some(j) ==> j !in run[at.job].jobs)
            && run[at.hash].report.Some? && Sha256(run[at.hash].report.value) == r.reportHash
            && run[at.inputs].inputs == r.inputs
            && run[at.content].report.Some?
            && site.valid(e.producer, e.partition, run[at.content].report.value, r.inputs)
  {
    if AcceptsOver(run, at, site, kind) {
      assert run[at.slot].slot == Some(Slot(run[at.slot].slot.value.owner,
                                            Some(Sha256(run[at.receipt].receipt.value))));
    }
  }

  /** The commands of a producer pass exactly when all but the last ended with zero and the last ended well. */
  lemma PassingTells(producer: Producer, exits: seq<Option<int>>)
    ensures AllPassed(producer, exits) <==>
            && exits != [] && (forall i :: 0 <= i < |exits| - 1 ==> exits[i] == Some(0))
            && exits[|exits| - 1].Some? && EndedWell(producer, exits[|exits| - 1].value)
  {
    if exits != [] {
      var last := |exits| - 1;
      assert Passed(producer, exits, last) <==> exits[last].Some? && EndedWell(producer, exits[last].value);
      forall i | 0 <= i < last ensures Passed(producer, exits, i) <==> exits[i] == Some(0) {
      }
    }
  }

  /** What is recorded of an execution: the producer and its version, the prerequisite, the auxiliary commands
      and the producer's own in this order, and how the last one ended. */
  lemma RecordTells(spec: Spec, version: string, exits: seq<Option<int>>)
    requires Prepared(spec) && version != "" && AllPassed(spec.producer, exits)
    ensures var e := ExecutionOf(spec, version, exits);
            && e.producer == spec.producer && e.version == version && e.partition == spec.partition
            && Some(e.exit) == exits[|exits| - 1] && EndedWell(e.producer, e.exit)
            && (spec.prerequisite.None? ==> e.command == spec.auxiliary + [spec.tokens] && !e.prerequisitePassed)
            && (spec.prerequisite.Some? ==>
                  e.command == [spec.prerequisite.value] + spec.auxiliary + [spec.tokens] && e.prerequisitePassed)
  {
    PassingTells(spec.producer, exits);
  }

  /** Between any two steps a running attempt may fail or be killed, and one that unwinds may be killed. */
  lemma AnyAttemptMayStop(s: World, site: Site, j: Job, cleaned: nat)
    requires j in s.attempts && s.attempts[j].stage < COMMITTED
    requires s.attempts[j].fate == Running || s.attempts[j].fate == Unwinding(cleaned)
    ensures Next(s, site, s.(attempts := s.attempts[j := s.attempts[j].(fate := Killed)]))
    ensures s.attempts[j].fate == Running ==>
              Next(s, site, s.(attempts := s.attempts[j := s.attempts[j].(fate := Unwinding(0))]))
  {
    var killed := s.(attempts := s.attempts[j := s.attempts[j].(fate := Killed)]);
    assert Kill(s, j, killed) && Acts(s, site, j, killed);
    if s.attempts[j].fate == Running {
      var failing := s.(attempts := s.attempts[j := s.attempts[j].(fate := Unwinding(0))]);
      assert Fail(s, j, failing) && Acts(s, site, j, failing);
    }
  }

  /** At any moment others may change whatever lies outside the registry, and remove jobs. */
  lemma OthersMayWrite(s: World, site: Site, t: World)
    requires t.slot == s.slot && t.records == s.records && t.attempts == s.attempts && t.jobs.Keys <= s.jobs.Keys
    ensures Next(s, site, t)
  {
  }
}
