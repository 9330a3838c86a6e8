/** The ratchet over a whole report: five kinds of static findings against a baseline. */
module LegacyRatchet {
  import opened PathOrder
  import opened RenameLineage
  import opened Ratchet

  datatype Advisory =
    | OfBudget(budget: Advice<Budget>)
    | OfSuppression(suppression: Suppression)
    | OfComplexity(complexity: Advice<Complexity>)
    | OfInvariant(invariant_: Invariant)
    | OfClone(clone: Clone)

  datatype RatchetOutcome = RatchetOutcome(grandfathered: nat, retained: nat, advisories: seq<Advisory>)

  const BUDGETS: Numeric<Budget, (Path, string)> :=
    Numeric((v, c) => BudgetAttributable(v, c), (v, l) => BudgetKey(v, l), (v: Budget) => v.actual)
  const SUPPRESSIONS: Counted<Suppression, (Path, string, seq<string>)> :=
    Counted((v, c) => SuppressionAttributable(v, c), (v, l) => SuppressionKey(v, l), (v: Suppression) => true)
  const COMPLEXITIES: Numeric<Complexity, (Path, string, string)> :=
    Numeric((v, c) => ComplexityAttributable(v, c), (v, l) => ComplexityKey(v, l), (v: Complexity) => v.actual)
  const INVARIANTS: Counted<Invariant, (Path, string, string, string, seq<string>)> :=
    Counted((v, c) => InvariantAttributable(v, c), (v, l) => InvariantKey(v, l), (v: Invariant) => true)
  const CLONES: Counted<Clone, (Path, Path, string)> :=
    Counted((v, c) => CloneAttributable(v, c), (v, l) => CloneKey(v, l), (v: Clone) => v.fingerprint != "")

  datatype Static = Static(
    budgets: seq<Budget>, suppressions: seq<Suppression>, complexities: seq<Complexity>,
    invariants: seq<Invariant>, clones: seq<Clone>)

  /** The findings of each kind that were grandfathered. */
  datatype Granting = Granting(
    budgets: seq<Advice<Budget>>, suppressions: seq<Suppression>, complexities: seq<Advice<Complexity>>,
    invariants: seq<Invariant>, clones: seq<Clone>)

  /** What the ratchet owes for each kind of static finding. */
  ghost predicate Ratcheted(current: Static, baseline: Static, changes: ChangeSet, kept: Static, g: Granting,
                            advice: seq<Advisory>) {
    && advice == AllAdvice(g)
    && NumericOutcome(BUDGETS, current.budgets, baseline.budgets, changes, kept.budgets, g.budgets)
    && CountRatchet(SUPPRESSIONS, current.suppressions, baseline.suppressions, changes, kept.suppressions,
                    g.suppressions)
    && NumericOutcome(COMPLEXITIES, current.complexities, baseline.complexities, changes, kept.complexities,
                      g.complexities)
    && CountRatchet(INVARIANTS, current.invariants, baseline.invariants, changes, kept.invariants, g.invariants)
    && CountRatchet(CLONES, current.clones, baseline.clones, changes, kept.clones, g.clones)
  }

  function Size(s: Static): nat {
    |s.budgets| + |s.suppressions| + |s.complexities| + |s.invariants| + |s.clones|
  }

  method RatchetStatic(current: Static, baseline: Static, changes: ChangeSet)
    returns (kept: Static, ghost granted: Granting, advice: seq<Advisory>)
    ensures Ratcheted(current, baseline, changes, kept, granted, advice)
    ensures Size(kept) + |advice| == Size(current)
  {
    var keptB, b := RatchetNumeric(BUDGETS, current.budgets, baseline.budgets, changes);
    var keptS, s := RatchetMultiset(SUPPRESSIONS, current.suppressions, baseline.suppressions, changes);
    var keptC, c := RatchetNumeric(COMPLEXITIES, current.complexities, baseline.complexities, changes);
    var keptI, i := RatchetMultiset(INVARIANTS, current.invariants, baseline.invariants, changes);
    var keptCl, cl := RatchetMultiset(CLONES, current.clones, baseline.clones, changes);
    kept := Static(keptB, keptS, keptC, keptI, keptCl);
    granted := Granting(b, s, c, i, cl);
    advice := AllAdvice(Granting(b, s, c, i, cl));
  }

  /** A baseline with debt added, of any kind and in any order. */
  ghost predicate MoreDebt(fewer: Static, more: Static) {
    && multiset(fewer.budgets) <= multiset(more.budgets)
    && multiset(fewer.suppressions) <= multiset(more.suppressions)
    && multiset(fewer.complexities) <= multiset(more.complexities)
    && multiset(fewer.invariants) <= multiset(more.invariants)
    && multiset(fewer.clones) <= multiset(more.clones)
  }

  /** Adding debt to the baseline never retains more: of no kind of finding, and so not in all. */
  lemma AddedDebtRetainsNoMore(current: Static, fewer: Static, more: Static, changes: ChangeSet,
                               kept: Static, g: Granting, advice: seq<Advisory>,
                               keptMore: Static, gMore: Granting, adviceMore: seq<Advisory>)
    requires Ratcheted(current, fewer, changes, kept, g, advice)
    requires Ratcheted(current, more, changes, keptMore, gMore, adviceMore)
    requires MoreDebt(fewer, more)
    ensures Size(keptMore) <= Size(kept) && |advice| <= |adviceMore|
  {
    hide NumericOutcome, CountRatchet;
    AddedDebtRetainsNoMoreNumeric(BUDGETS, current.budgets, fewer.budgets, more.budgets, changes,
                                  kept.budgets, g.budgets, keptMore.budgets, gMore.budgets);
    AddedDebtRetainsNoMoreCounted(SUPPRESSIONS, current.suppressions, fewer.suppressions, more.suppressions, changes,
                                  kept.suppressions, g.suppressions, keptMore.suppressions, gMore.suppressions);
    AddedDebtRetainsNoMoreNumeric(COMPLEXITIES, current.complexities, fewer.complexities, more.complexities, changes,
                                  kept.complexities, g.complexities, keptMore.complexities, gMore.complexities);
    AddedDebtRetainsNoMoreCounted(INVARIANTS, current.invariants, fewer.invariants, more.invariants, changes,
                                  kept.invariants, g.invariants, keptMore.invariants, gMore.invariants);
    AddedDebtRetainsNoMoreCounted(CLONES, current.clones, fewer.clones, more.clones, changes,
                                  kept.clones, g.clones, keptMore.clones, gMore.clones);
  }

  class GateReport<Evidence> {
    var findings: Static
    var coverage: seq<Evidence>
    var mutation: seq<Evidence>
    var orchestration: seq<Evidence>
    var blockingTools: nat
    var advisories: seq<Advisory>
    var passed: bool

    function TotalViolations(): nat
      reads this
    {
      Size(findings) + |coverage| + |mutation| + |orchestration| + blockingTools
    }

    /** Present static debt that the baseline covers becomes advice; evidence stays as it is. */
    method ApplyLegacyRatchet(baseline: Static, changes: ChangeSet)
      returns (outcome: RatchetOutcome, ghost granted: Granting)
      modifies this`findings, this`advisories, this`passed
      ensures Ratcheted(old(findings), baseline, changes, findings, granted, outcome.advisories)
      ensures outcome.grandfathered + outcome.retained == old(TotalViolations())
      ensures outcome.grandfathered == |outcome.advisories| && outcome.retained == TotalViolations()
      ensures advisories == old(advisories) + outcome.advisories
      ensures outcome.retained == |findings.budgets| + |findings.suppressions| + |findings.complexities| +
                                  |findings.invariants| + |findings.clones| +
                                  |coverage| + |mutation| + |orchestration| + blockingTools
      ensures passed <==> outcome.retained == 0
    {
      var kept, advice;
      kept, granted, advice := RatchetStatic(findings, baseline, changes);
      findings := kept;
      advisories := advisories + advice;
      passed := TotalViolations() == 0;
      outcome := RatchetOutcome(|advice|, TotalViolations(), advice);
    }
  }

  function AllAdvice(g: Granting): (r: seq<Advisory>)
    ensures |r| == |g.budgets| + |g.suppressions| + |g.complexities| + |g.invariants| + |g.clones|
  {
    seq(|g.budgets|, k requires 0 <= k < |g.budgets| => OfBudget(g.budgets[k])) +
    seq(|g.suppressions|, k requires 0 <= k < |g.suppressions| => OfSuppression(g.suppressions[k])) +
    seq(|g.complexities|, k requires 0 <= k < |g.complexities| => OfComplexity(g.complexities[k])) +
    seq(|g.invariants|, k requires 0 <= k < |g.invariants| => OfInvariant(g.invariants[k])) +
    seq(|g.clones|, k requires 0 <= k < |g.clones| => OfClone(g.clones[k]))
  }

  /** Under a lineage made by hand with two renames in a row, old debt blocks: the key of the present
      finding is the first name, not the name that the baseline knew. */
  lemma ChainedRenameBlocksOldDebt()
    ensures var changes := ChangeSet(map[], {}, map[["c"] := ["b"], ["b"] := ["a"]]);
            var before, now := Budget(["b"], "lines", 10.0), Budget(["c"], "lines", 10.0);
            && !BudgetAttributable(now, changes)
            && BaselinePath(changes.lineage, now.file) == before.file
            && BudgetKey(now, changes.lineage) != BudgetKey(before, map[])
  {
    RenameChainIsOverrun();
    assert Canonical(map[], ["b"]) == ["b"];
    assert ["a"] != ["b"];
  }
}
