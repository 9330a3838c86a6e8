/** What the ratchet over a report means, said of the findings and of the change: which findings it never
    excuses, which baseline finding stands behind each one that it does, and what is left of a report that
    is held against its own past. */
module RatchetMeaning {
  import opened BestFit
  import opened LegacyRatchet
  import opened PathOrder
  import opened Ratchet
  import opened RenameLineage
  import opened Wrappers

  // ---------- what the change touches ----------

  predicate Edits(changes: ChangeSet, file: Path, line: nat) {
    file in changes.changedLines && line in changes.changedLines[file]
  }

  predicate TouchesFile(changes: ChangeSet, file: Path) {
    file in changes.changedFiles || file in changes.changedLines
  }

  ghost predicate TouchesBudget(changes: ChangeSet, v: Budget) {
    TouchesFile(changes, v.file)
  }

  ghost predicate TouchesSuppression(changes: ChangeSet, v: Suppression) {
    Edits(changes, v.file, v.line)
  }

  /** The function's first line, or any line up to its end. */
  ghost predicate TouchesComplexity(changes: ChangeSet, v: Complexity) {
    Edits(changes, v.file, v.line) || exists line: nat :: v.line <= line <= v.endLine && Edits(changes, v.file, line)
  }

  ghost predicate TouchesInvariant(changes: ChangeSet, v: Invariant) {
    Edits(changes, v.file, v.line)
  }

  /** Any line of either side. */
  ghost predicate TouchesClone(changes: ChangeSet, v: Clone) {
    || (exists line: nat :: v.linesA.0 <= line <= v.linesA.1 && Edits(changes, v.fileA, line))
    || (exists line: nat :: v.linesB.0 <= line <= v.linesB.1 && Edits(changes, v.fileB, line))
  }

  lemma RangeTells(changes: ChangeSet, file: Path, first: nat, last: nat)
    ensures ChangedRange(file, first, last, changes) <==>
            exists line: nat :: first <= line <= last && Edits(changes, file, line)
  {
    if ChangedRange(file, first, last, changes) {
      var line :| line in changes.changedLines[file] && first <= line <= last;
      assert Edits(changes, file, line);
    }
  }

  lemma AttributionTells(changes: ChangeSet)
    ensures forall v: Budget :: BUDGETS.attributable(v, changes) <==> TouchesBudget(changes, v)
    ensures forall v: Suppression :: SUPPRESSIONS.attributable(v, changes) <==> TouchesSuppression(changes, v)
    ensures forall v: Complexity :: COMPLEXITIES.attributable(v, changes) <==> TouchesComplexity(changes, v)
    ensures forall v: Invariant :: INVARIANTS.attributable(v, changes) <==> TouchesInvariant(changes, v)
    ensures forall v: Clone :: CLONES.attributable(v, changes) <==> TouchesClone(changes, v)
  {
    hide ChangedRange;
    forall v: Complexity ensures COMPLEXITIES.attributable(v, changes) <==> TouchesComplexity(changes, v) {
      RangeTells(changes, v.file, v.line, if v.endLine > v.line then v.endLine else v.line);
    }
    forall v: Clone ensures CLONES.attributable(v, changes) <==> TouchesClone(changes, v) {
      RangeTells(changes, v.fileA, v.linesA.0, v.linesA.1);
      RangeTells(changes, v.fileB, v.linesB.0, v.linesB.1);
    }
  }

  // ---------- what a kind compares ----------

  lemma OwnPath(path: Path)
    ensures Canonical(map[], path) == path
  {
  }

  /** A present finding and a baseline finding have one key exactly when the baseline finding lies under the
      present one's canonical path and the named fields agree. */
  lemma KeysTell(lineage: Lineage)
    ensures forall v: Budget, w: Budget :: BUDGETS.key(v, lineage) == BUDGETS.key(w, map[]) <==>
              Canonical(lineage, v.file) == w.file && v.metric == w.metric
    ensures forall v: Suppression, w: Suppression :: SUPPRESSIONS.key(v, lineage) == SUPPRESSIONS.key(w, map[]) <==>
              Canonical(lineage, v.file) == w.file && v.token == w.token && v.words == w.words
    ensures forall v: Complexity, w: Complexity :: COMPLEXITIES.key(v, lineage) == COMPLEXITIES.key(w, map[]) <==>
              Canonical(lineage, v.file) == w.file && v.name == w.name && v.metric == w.metric
    ensures forall v: Invariant, w: Invariant :: INVARIANTS.key(v, lineage) == INVARIANTS.key(w, map[]) <==>
              Canonical(lineage, v.file) == w.file && v.rule == w.rule && v.kind == w.kind &&
              v.target == w.target && v.words == w.words
    ensures forall v: Clone, w: Clone :: CLONES.key(v, lineage) == CLONES.key(w, map[]) <==>
              v.fingerprint == w.fingerprint &&
              ((Canonical(lineage, v.fileA) == w.fileA && Canonical(lineage, v.fileB) == w.fileB) ||
               (Canonical(lineage, v.fileA) == w.fileB && Canonical(lineage, v.fileB) == w.fileA))
  {
    forall path: Path ensures Canonical(map[], path) == path {
      OwnPath(path);
    }
    forall v: Clone, w: Clone
      ensures CLONES.key(v, lineage) == CLONES.key(w, map[]) <==>
              v.fingerprint == w.fingerprint &&
              ((Canonical(lineage, v.fileA) == w.fileA && Canonical(lineage, v.fileB) == w.fileB) ||
               (Canonical(lineage, v.fileA) == w.fileB && Canonical(lineage, v.fileB) == w.fileA))
    {
      PathOrderIsTotal(Canonical(lineage, v.fileA), Canonical(lineage, v.fileB));
      PathOrderIsTotal(w.fileA, w.fileB);
    }
  }

  lemma MeasuresTell()
    ensures forall v: Budget :: BUDGETS.actual(v) == v.actual
    ensures forall v: Complexity :: COMPLEXITIES.actual(v) == v.actual
    ensures forall v: Suppression :: SUPPRESSIONS.eligible(v)
    ensures forall v: Invariant :: INVARIANTS.eligible(v)
    ensures forall v: Clone :: CLONES.eligible(v) <==> v.fingerprint != ""
  {
  }

  // ---------- one kind against its own past ----------

  ghost function Staying<T(!new)>(s: seq<T>, stays: T -> bool): seq<T> {
    if s == [] then [] else (if stays(s[0]) then [s[0]] else []) + Staying(s[1..], stays)
  }

  lemma {:induction false} StayingAppends<T(!new)>(s: seq<T>, x: T, stays: T -> bool)
    ensures Staying(s + [x], stays) == Staying(s, stays) + if stays(x) then [x] else []
  {
    var longer := s + [x];
    if s == [] {
      assert longer[1..] == [];
    } else {
      assert longer[0] == s[0] && longer[1..] == s[1..] + [x];
      StayingAppends(s[1..], x, stays);
    }
  }

  /** Nothing that stays is taken. */
  lemma {:induction false} TakenAreNoMore<T(!new)>(whole: seq<T>, kept: seq<T>, taken: seq<T>, stays: T -> bool)
    requires Interleaves(whole, kept, taken) && forall x :: x in taken ==> !stays(x)
    ensures |taken| + |Staying(whole, stays)| <= |whole|
  {
    if whole != [] {
      if kept != [] && kept[0] == whole[0] && Interleaves(whole[1..], kept[1..], taken) {
        TakenAreNoMore(whole[1..], kept[1..], taken, stays);
      } else {
        TakenAreNoMore(whole[1..], kept, taken[1..], stays);
        assert taken[0] in taken;
      }
    }
  }

  /** When all is taken that may be, just what stays is kept. */
  lemma {:induction false} AllTaken<T(!new)>(whole: seq<T>, kept: seq<T>, taken: seq<T>, stays: T -> bool)
    requires Interleaves(whole, kept, taken) && forall x :: x in taken ==> !stays(x)
    requires |taken| + |Staying(whole, stays)| == |whole|
    ensures kept == Staying(whole, stays)
  {
    if whole != [] {
      if kept != [] && kept[0] == whole[0] && Interleaves(whole[1..], kept[1..], taken) {
        TakenAreNoMore(whole[1..], kept[1..], taken, stays);
        AllTaken(whole[1..], kept[1..], taken, stays);
      } else {
        assert taken[0] in taken;
        AllTaken(whole[1..], kept, taken[1..], stays);
      }
    }
  }

  /** The assignment that gives each finding its own past one. */
  ghost function OwnPast<T(!new), K>(ops: Numeric<T, K>, current: seq<T>, past: seq<T>, changes: ChangeSet)
    : (a: seq<Option<Measure>>)
    requires |past| == |current|
    ensures |a| == |Debts(ops, current, changes)|
  {
    if current == [] then []
    else (if ops.attributable(current[0], changes) then [] else [Some(ops.actual(past[0]))]) +
         OwnPast(ops, current[1..], past[1..], changes)
  }

  /** Each finding has a past one of its own key that was no smaller. */
  ghost predicate NoWorse<T(!new), K>(ops: Numeric<T, K>, current: seq<T>, past: seq<T>, changes: ChangeSet) {
    |past| == |current| && forall i :: 0 <= i < |current| ==>
      ops.key(past[i], map[]) == ops.key(current[i], changes.lineage) && ops.actual(current[i]) <= ops.actual(past[i])
  }

  /** The first finding's debt and its own past. */
  lemma FirstOwnPast<T(!new), K>(ops: Numeric<T, K>, current: seq<T>, past: seq<T>, changes: ChangeSet)
    requires NoWorse(ops, current, past, changes) && current != []
    ensures NoWorse(ops, current[1..], past[1..], changes)
    ensures var debts, a := Debts(ops, current, changes), OwnPast(ops, current, past, changes);
            var rest, own := Debts(ops, current[1..], changes), OwnPast(ops, current[1..], past[1..], changes);
            if ops.attributable(current[0], changes) then debts == rest && a == own
            else && debts == [Debt(ops.key(past[0], map[]), ops.actual(current[0]))] + rest
                 && a == [Some(ops.actual(past[0]))] + own && debts[1..] == rest && a[1..] == own
                 && ops.actual(current[0]) <= ops.actual(past[0])
  {
  }

  lemma {:induction false} OwnPastIsLarge<T(!new), K>(ops: Numeric<T, K>, current: seq<T>, past: seq<T>,
                                                      changes: ChangeSet, stays: T -> bool)
    requires NoWorse(ops, current, past, changes) && forall v :: stays(v) <==> ops.attributable(v, changes)
    ensures LargeEnough(Debts(ops, current, changes), OwnPast(ops, current, past, changes))
    ensures Covered(OwnPast(ops, current, past, changes)) == |Debts(ops, current, changes)|
    ensures |Debts(ops, current, changes)| + |Staying(current, stays)| == |current|
  {
    if current != [] {
      FirstOwnPast(ops, current, past, changes);
      OwnPastIsLarge(ops, current[1..], past[1..], changes, stays);
    }
  }

  lemma FirstPastValue<T(!new), K(!new)>(ops: Numeric<T, K>, past: seq<T>, k: K, v: Measure)
    requires past != []
    ensures multiset(BaselineValues(ops, past, k))[v] ==
            multiset(BaselineValues(ops, past[1..], k))[v] +
            if ops.key(past[0], map[]) == k && ops.actual(past[0]) == v then 1 else 0
  {
    ValuesWithout(ops, past, 0, k);
    assert Without(past, 0) == past[1..];
  }

  lemma FirstUse<K(!new)>(d: Debt<K>, x: Option<Measure>, debts: seq<Debt<K>>, a: seq<Option<Measure>>, k: K,
                          v: Measure)
    requires |a| == |debts|
    ensures Used([d] + debts, [x] + a, k, v) == Uses(d, x, k, v) + Used(debts, a, k, v)
  {
    assert ([d] + debts)[1..] == debts && ([x] + a)[1..] == a;
  }

  lemma {:induction false} OwnPastIsThere<T(!new), K(!new)>(ops: Numeric<T, K>, current: seq<T>, past: seq<T>,
                                                           changes: ChangeSet, k: K, v: Measure)
    requires NoWorse(ops, current, past, changes)
    ensures Used(Debts(ops, current, changes), OwnPast(ops, current, past, changes), k, v) <=
            multiset(BaselineValues(ops, past, k))[v]
  {
    if current != [] {
      FirstOwnPast(ops, current, past, changes);
      OwnPastIsThere(ops, current[1..], past[1..], changes, k, v);
      FirstPastValue(ops, past, k, v);
      FirstUse(Debt(ops.key(past[0], map[]), ops.actual(current[0])), Some(ops.actual(past[0])),
               Debts(ops, current[1..], changes), OwnPast(ops, current[1..], past[1..], changes), k, v);
      hide NoWorse;
    }
  }

  /** Where no finding got worse, exactly those stay that the change touches. */
  lemma PastNumericDebtGoes<T(!new), K(!new)>(ops: Numeric<T, K>, current: seq<T>, past: seq<T>, changes: ChangeSet,
                                              kept: seq<T>, advice: seq<Advice<T>>, stays: T -> bool)
    requires NumericOutcome(ops, current, past, changes, kept, advice) && NoWorse(ops, current, past, changes)
    requires forall v :: stays(v) <==> ops.attributable(v, changes)
    ensures kept == Staying(current, stays)
  {
    var pool :| IsPool(ops, past, pool) && (kept, advice) == Outcome(ops, current, changes, pool);
    var debts, a := Debts(ops, current, changes), OwnPast(ops, current, past, changes);
    PoolIsBaseline(ops, past, pool);
    OwnPastIsLarge(ops, current, past, changes, stays);
    forall k, v ensures Used(debts, a, k, v) <= multiset(Values(pool, k))[v] {
      OwnPastIsThere(ops, current, past, changes, k, v);
    }
    assert Valid(debts, pool, a);
    forall x | x in Findings(advice) ensures !stays(x) {
      FindingIsAdvised(advice, x);
    }
    InterleavingConserves(current, kept, Findings(advice));
    TakenAreNoMore(current, kept, Findings(advice), stays);
    AllTaken(current, kept, Findings(advice), stays);
  }

  lemma FindingIsAdvised<T>(advice: seq<Advice<T>>, x: T)
    requires x in Findings(advice)
    ensures exists d :: d in advice && d.finding == x
  {
    var i :| 0 <= i < |Findings(advice)| && Findings(advice)[i] == x;
    assert advice[i] in advice;
  }

  /** Each finding has a past one of its own key that counted as it does. */
  ghost predicate NoMore<T(!new), K>(ops: Counted<T, K>, current: seq<T>, past: seq<T>, changes: ChangeSet) {
    |past| == |current| && forall i :: 0 <= i < |current| ==>
      ops.key(past[i], map[]) == ops.key(current[i], changes.lineage) &&
      ops.eligible(past[i]) == ops.eligible(current[i])
  }

  lemma {:induction false} FewerBefore<T(!new), K(!new)>(ops: Counted<T, K>, past: seq<T>, n: nat, k: K)
    requires n <= |past|
    ensures BaselineCount(ops, past[..n], k) <= BaselineCount(ops, past, k)
  {
    if n == |past| {
      assert past[..n] == past;
    } else {
      FewerBefore(ops, past[..|past| - 1], n, k);
      assert past[..|past| - 1][..n] == past[..n];
    }
  }

  lemma {:induction false} CandidatesArePast<T(!new), K(!new)>(ops: Counted<T, K>, current: seq<T>, past: seq<T>,
                                                              changes: ChangeSet, n: nat, k: K)
    requires NoMore(ops, current, past, changes) && n <= |current|
    ensures CandidateCount(ops, current[..n], changes, k) <= BaselineCount(ops, past[..n], k)
  {
    if n > 0 {
      CandidatesArePast(ops, current, past, changes, n - 1, k);
      assert current[..n][..n - 1] == current[..n - 1] && past[..n][..n - 1] == past[..n - 1];
    }
  }

  lemma {:induction false} PastCountedDebtGoesBefore<T(!new), K(!new)>(ops: Counted<T, K>, current: seq<T>,
                                                                      past: seq<T>, changes: ChangeSet, n: nat,
                                                                      stays: T -> bool)
    requires NoMore(ops, current, past, changes) && n <= |current|
    requires forall v :: stays(v) <==> !Candidate(ops, v, changes)
    ensures FirstCome(ops, current[..n], past, changes).0 == Staying(current[..n], stays)
  {
    if n > 0 {
      PastCountedDebtGoesBefore(ops, current, past, changes, n - 1, stays);
      assert current[..n][..n - 1] == current[..n - 1] && current[..n] == current[..n - 1] + [current[n - 1]];
      StayingAppends(current[..n - 1], current[n - 1], stays);
      var k := ops.key(current[n - 1], changes.lineage);
      CandidatesArePast(ops, current, past, changes, n, k);
      FewerBefore(ops, past, n, k);
    }
  }

  lemma PastCountedDebtGoes<T(!new), K(!new)>(ops: Counted<T, K>, current: seq<T>, past: seq<T>, changes: ChangeSet,
                                              kept: seq<T>, taken: seq<T>, stays: T -> bool)
    requires CountRatchet(ops, current, past, changes, kept, taken) && NoMore(ops, current, past, changes)
    requires forall v :: stays(v) <==> !Candidate(ops, v, changes)
    ensures kept == Staying(current, stays)
  {
    PastCountedDebtGoesBefore(ops, current, past, changes, |current|, stays);
    assert current[..|current|] == current;
  }

  // ---------- the whole report ----------

  /** Each present finding has a past one under its canonical path that agrees with it and was no smaller. */
  ghost predicate NotWorse(current: Static, past: Static, lineage: Lineage) {
    && |past.budgets| == |current.budgets| && |past.suppressions| == |current.suppressions|
    && |past.complexities| == |current.complexities| && |past.invariants| == |current.invariants|
    && |past.clones| == |current.clones|
    && (forall i :: 0 <= i < |current.budgets| ==>
          var v, w := current.budgets[i], past.budgets[i];
          w.file == Canonical(lineage, v.file) && w.metric == v.metric && w.actual >= v.actual)
    && (forall i :: 0 <= i < |current.suppressions| ==>
          var v, w := current.suppressions[i], past.suppressions[i];
          w.file == Canonical(lineage, v.file) && w.token == v.token && w.words == v.words)
    && (forall i :: 0 <= i < |current.complexities| ==>
          var v, w := current.complexities[i], past.complexities[i];
          w.file == Canonical(lineage, v.file) && w.name == v.name && w.metric == v.metric && w.actual >= v.actual)
    && (forall i :: 0 <= i < |current.invariants| ==>
          var v, w := current.invariants[i], past.invariants[i];
          && w.file == Canonical(lineage, v.file) && w.rule == v.rule && w.kind == v.kind && w.target == v.target
          && w.words == v.words)
    && (forall i :: 0 <= i < |current.clones| ==>
          var v, w := current.clones[i], past.clones[i];
          && w.fileA == Canonical(lineage, v.fileA) && w.fileB == Canonical(lineage, v.fileB)
          && w.fingerprint == v.fingerprint)
  }

  ghost function BudgetStays(changes: ChangeSet): Budget -> bool { v => TouchesBudget(changes, v) }
  ghost function SuppressionStays(changes: ChangeSet): Suppression -> bool { v => TouchesSuppression(changes, v) }
  ghost function ComplexityStays(changes: ChangeSet): Complexity -> bool { v => TouchesComplexity(changes, v) }
  ghost function InvariantStays(changes: ChangeSet): Invariant -> bool { v => TouchesInvariant(changes, v) }
  ghost function CloneStays(changes: ChangeSet): Clone -> bool {
    (v: Clone) => v.fingerprint == "" || TouchesClone(changes, v)
  }

  /** Against a past in which nothing was better, exactly those findings stay that the change touches, and
      clones without a fingerprint. */
  lemma PastDebtGoes(current: Static, past: Static, changes: ChangeSet, kept: Static, g: Granting,
                     advice: seq<Advisory>)
    requires Ratcheted(current, past, changes, kept, g, advice) && NotWorse(current, past, changes.lineage)
    ensures kept.budgets == Staying(current.budgets, BudgetStays(changes))
    ensures kept.suppressions == Staying(current.suppressions, SuppressionStays(changes))
    ensures kept.complexities == Staying(current.complexities, ComplexityStays(changes))
    ensures kept.invariants == Staying(current.invariants, InvariantStays(changes))
    ensures kept.clones == Staying(current.clones, CloneStays(changes))
  {
    StaysTell(changes);
    PastIsNoWorse(current, past, changes);
    hide NumericOutcome, CountRatchet, NotWorse, NoWorse, NoMore, Candidate, BudgetStays, SuppressionStays,
      ComplexityStays, InvariantStays, CloneStays;
    PastNumericDebtGoes(BUDGETS, current.budgets, past.budgets, changes, kept.budgets, g.budgets,
                        BudgetStays(changes));
    PastCountedDebtGoes(SUPPRESSIONS, current.suppressions, past.suppressions, changes, kept.suppressions,
                        g.suppressions, SuppressionStays(changes));
    PastNumericDebtGoes(COMPLEXITIES, current.complexities, past.complexities, changes, kept.complexities,
                        g.complexities, ComplexityStays(changes));
    PastCountedDebtGoes(INVARIANTS, current.invariants, past.invariants, changes, kept.invariants, g.invariants,
                        InvariantStays(changes));
    PastCountedDebtGoes(CLONES, current.clones, past.clones, changes, kept.clones, g.clones, CloneStays(changes));
  }

  lemma StaysTell(changes: ChangeSet)
    ensures forall v :: BudgetStays(changes)(v) <==> BUDGETS.attributable(v, changes)
    ensures forall v :: SuppressionStays(changes)(v) <==> !Candidate(SUPPRESSIONS, v, changes)
    ensures forall v :: ComplexityStays(changes)(v) <==> COMPLEXITIES.attributable(v, changes)
    ensures forall v :: InvariantStays(changes)(v) <==> !Candidate(INVARIANTS, v, changes)
    ensures forall v :: CloneStays(changes)(v) <==> !Candidate(CLONES, v, changes)
  {
    AttributionTells(changes);
    MeasuresTell();
  }

  lemma PastIsNoWorse(current: Static, past: Static, changes: ChangeSet)
    requires NotWorse(current, past, changes.lineage)
    ensures NoWorse(BUDGETS, current.budgets, past.budgets, changes)
    ensures NoMore(SUPPRESSIONS, current.suppressions, past.suppressions, changes)
    ensures NoWorse(COMPLEXITIES, current.complexities, past.complexities, changes)
    ensures NoMore(INVARIANTS, current.invariants, past.invariants, changes)
    ensures NoMore(CLONES, current.clones, past.clones, changes)
  {
    KeysTell(changes.lineage);
    MeasuresTell();
  }

  lemma {:induction false} NothingStays<T(!new)>(s: seq<T>, stays: T -> bool)
    requires forall x :: !stays(x)
    ensures Staying(s, stays) == []
  {
    if s != [] {
      NothingStays(s[1..], stays);
    }
  }

  /** A report held against itself without a change keeps nothing but clones without a fingerprint. */
  lemma OwnDebtGoes(current: Static, kept: Static, g: Granting, advice: seq<Advisory>)
    requires Ratcheted(current, current, ChangeSet(map[], {}, map[]), kept, g, advice)
    ensures kept.budgets == [] && kept.suppressions == [] && kept.complexities == [] && kept.invariants == []
    ensures forall v :: v in kept.clones ==> v.fingerprint == ""
  {
    hide Ratcheted, NotWorse, BudgetStays, SuppressionStays, ComplexityStays, InvariantStays;
    var changes := ChangeSet(map[], {}, map[]);
    OwnIsNotWorse(current);
    PastDebtGoes(current, current, changes, kept, g, advice);
    NothingTouched();
    NothingStays(current.budgets, BudgetStays(changes));
    NothingStays(current.suppressions, SuppressionStays(changes));
    NothingStays(current.complexities, ComplexityStays(changes));
    NothingStays(current.invariants, InvariantStays(changes));
    forall v | v in kept.clones ensures v.fingerprint == "" {
      StayingStays(current.clones, CloneStays(changes), v);
    }
  }

  lemma OwnIsNotWorse(current: Static)
    ensures NotWorse(current, current, map[])
  {
    forall path: Path ensures Canonical(map[], path) == path {
      OwnPath(path);
    }
  }

  lemma NothingTouched()
    ensures var changes := ChangeSet(map[], {}, map[]);
            && (forall v :: !BudgetStays(changes)(v)) && (forall v :: !SuppressionStays(changes)(v))
            && (forall v :: !ComplexityStays(changes)(v)) && (forall v :: !InvariantStays(changes)(v))
            && (forall v: Clone :: CloneStays(changes)(v) ==> v.fingerprint == "")
  {
  }

  lemma {:induction false} StayingStays<T(!new)>(s: seq<T>, stays: T -> bool, x: T)
    requires x in Staying(s, stays)
    ensures x in s && stays(x)
  {
    if x !in Staying(s[1..], stays) {
      assert x == s[0];
    } else {
      StayingStays(s[1..], stays, x);
    }
  }

  // ---------- against any baseline ----------

  lemma AllKept<T(!new)>(current: seq<T>, kept: seq<T>, taken: seq<T>, x: T)
    requires Interleaves(current, kept, taken) && x !in taken
    ensures multiset(kept)[x] == multiset(current)[x]
  {
    InterleavingConserves(current, kept, taken);
    assert x !in multiset(taken);
  }

  /** Whatever the baseline holds, each finding that the change touches stays, as often as it is there. */
  lemma TouchedFindingsStay(current: Static, baseline: Static, changes: ChangeSet, kept: Static, g: Granting,
                            advice: seq<Advisory>)
    requires Ratcheted(current, baseline, changes, kept, g, advice)
    ensures forall v: Budget :: TouchesBudget(changes, v) ==> multiset(kept.budgets)[v] == multiset(current.budgets)[v]
    ensures forall v: Suppression :: TouchesSuppression(changes, v) ==>
              multiset(kept.suppressions)[v] == multiset(current.suppressions)[v]
    ensures forall v: Complexity :: TouchesComplexity(changes, v) ==>
              multiset(kept.complexities)[v] == multiset(current.complexities)[v]
    ensures forall v: Invariant :: TouchesInvariant(changes, v) ==>
              multiset(kept.invariants)[v] == multiset(current.invariants)[v]
    ensures forall v: Clone :: TouchesClone(changes, v) || v.fingerprint == "" ==>
              multiset(kept.clones)[v] == multiset(current.clones)[v]
  {
    AttributionTells(changes);
    MeasuresTell();
    hide TouchesBudget, TouchesSuppression, TouchesComplexity, TouchesInvariant, TouchesClone;
    forall v: Budget | TouchesBudget(changes, v) ensures multiset(kept.budgets)[v] == multiset(current.budgets)[v] {
      NumericTouchedStays(BUDGETS, current.budgets, baseline.budgets, changes, kept.budgets, g.budgets, v);
    }
    forall v: Complexity | TouchesComplexity(changes, v)
      ensures multiset(kept.complexities)[v] == multiset(current.complexities)[v]
    {
      NumericTouchedStays(COMPLEXITIES, current.complexities, baseline.complexities, changes, kept.complexities,
                          g.complexities, v);
    }
    forall v: Suppression | TouchesSuppression(changes, v)
      ensures multiset(kept.suppressions)[v] == multiset(current.suppressions)[v]
    {
      CountedTouchedStays(SUPPRESSIONS, current.suppressions, baseline.suppressions, changes, kept.suppressions,
                          g.suppressions, v);
    }
    forall v: Invariant | TouchesInvariant(changes, v)
      ensures multiset(kept.invariants)[v] == multiset(current.invariants)[v]
    {
      CountedTouchedStays(INVARIANTS, current.invariants, baseline.invariants, changes, kept.invariants, g.invariants,
                          v);
    }
    forall v: Clone | TouchesClone(changes, v) || v.fingerprint == ""
      ensures multiset(kept.clones)[v] == multiset(current.clones)[v]
    {
      CountedTouchedStays(CLONES, current.clones, baseline.clones, changes, kept.clones, g.clones, v);
    }
  }

  lemma NumericTouchedStays<T(!new), K(!new)>(ops: Numeric<T, K>, current: seq<T>, baseline: seq<T>,
                                              changes: ChangeSet, kept: seq<T>, advice: seq<Advice<T>>, x: T)
    requires NumericOutcome(ops, current, baseline, changes, kept, advice) && ops.attributable(x, changes)
    ensures multiset(kept)[x] == multiset(current)[x]
  {
    if x in Findings(advice) {
      FindingIsAdvised(advice, x);
      assert false;
    }
    AllKept(current, kept, Findings(advice), x);
  }

  lemma CountedTouchedStays<T(!new), K(!new)>(ops: Counted<T, K>, current: seq<T>, baseline: seq<T>,
                                              changes: ChangeSet, kept: seq<T>, taken: seq<T>, x: T)
    requires CountRatchet(ops, current, baseline, changes, kept, taken)
    requires ops.attributable(x, changes) || !ops.eligible(x)
    ensures multiset(kept)[x] == multiset(current)[x]
  {
    AllKept(current, kept, taken, x);
  }

  lemma {:induction false} ValueHasFinding<T(!new), K>(ops: Numeric<T, K>, baseline: seq<T>, k: K, v: Measure)
    requires v in BaselineValues(ops, baseline, k)
    ensures exists b :: b in baseline && ops.key(b, map[]) == k && ops.actual(b) == v
  {
    var last := |baseline| - 1;
    if v in BaselineValues(ops, baseline[..last], k) {
      ValueHasFinding(ops, baseline[..last], k, v);
    } else {
      assert baseline[last] in baseline;
    }
  }

  lemma {:induction false} GrantIsListed<T, K>(ops: Numeric<T, K>, advice: seq<Advice<T>>, changes: ChangeSet,
                                               d: Advice<T>)
    requires d in advice
    ensures d.baseline in Granted(ops, advice, changes, ops.key(d.finding, changes.lineage))
  {
    if advice[0] != d {
      GrantIsListed(ops, advice[1..], changes, d);
    }
  }

  /** Behind each grandfathered finding with a measure stands a baseline finding of its key, at least as large. */
  lemma NumericHasBaseline<T(!new), K(!new)>(ops: Numeric<T, K>, current: seq<T>, baseline: seq<T>,
                                             changes: ChangeSet, kept: seq<T>, advice: seq<Advice<T>>, d: Advice<T>)
    requires NumericOutcome(ops, current, baseline, changes, kept, advice) && d in advice
    ensures exists b :: b in baseline && ops.key(b, map[]) == ops.key(d.finding, changes.lineage) &&
                        ops.actual(b) == d.baseline >= ops.actual(d.finding)
  {
    var k := ops.key(d.finding, changes.lineage);
    GrantIsListed(ops, advice, changes, d);
    assert d.baseline in multiset(Granted(ops, advice, changes, k));
    assert d.baseline in multiset(BaselineValues(ops, baseline, k));
    ValueHasFinding(ops, baseline, k, d.baseline);
  }

  lemma {:induction false} CountHasFinding<T(!new), K>(ops: Counted<T, K>, baseline: seq<T>, k: K)
    requires BaselineCount(ops, baseline, k) > 0
    ensures exists b :: b in baseline && ops.eligible(b) && ops.key(b, map[]) == k
  {
    var last := |baseline| - 1;
    if BaselineCount(ops, baseline[..last], k) > 0 {
      CountHasFinding(ops, baseline[..last], k);
    } else {
      assert baseline[last] in baseline;
    }
  }

  lemma {:induction false} CandidateIsCounted<T, K>(ops: Counted<T, K>, s: seq<T>, changes: ChangeSet, x: T)
    requires x in s && Candidate(ops, x, changes)
    ensures CandidateCount(ops, s, changes, ops.key(x, changes.lineage)) > 0
  {
    if s[|s| - 1] != x {
      CandidateIsCounted(ops, s[..|s| - 1], changes, x);
    }
  }

  lemma CountedHasBaseline<T(!new), K(!new)>(ops: Counted<T, K>, current: seq<T>, baseline: seq<T>,
                                             changes: ChangeSet, kept: seq<T>, taken: seq<T>, x: T)
    requires CountRatchet(ops, current, baseline, changes, kept, taken) && x in taken
    ensures exists b :: b in baseline && ops.eligible(b) && ops.key(b, map[]) == ops.key(x, changes.lineage)
  {
    CandidateIsCounted(ops, taken, changes, x);
    CountHasFinding(ops, baseline, ops.key(x, changes.lineage));
  }

  predicate BudgetBehind(lineage: Lineage, b: Budget, d: Advice<Budget>) {
    && b.file == Canonical(lineage, d.finding.file) && b.metric == d.finding.metric
    && b.actual == d.baseline >= d.finding.actual
  }

  predicate ComplexityBehind(lineage: Lineage, b: Complexity, d: Advice<Complexity>) {
    && b.file == Canonical(lineage, d.finding.file) && b.name == d.finding.name && b.metric == d.finding.metric
    && b.actual == d.baseline >= d.finding.actual
  }

  predicate SuppressionBehind(lineage: Lineage, b: Suppression, x: Suppression) {
    b.file == Canonical(lineage, x.file) && b.token == x.token && b.words == x.words
  }

  predicate InvariantBehind(lineage: Lineage, b: Invariant, x: Invariant) {
    && b.file == Canonical(lineage, x.file) && b.rule == x.rule && b.kind == x.kind && b.target == x.target
    && b.words == x.words
  }

  predicate CloneBehind(lineage: Lineage, b: Clone, x: Clone) {
    && b.fingerprint == x.fingerprint != ""
    && ((b.fileA == Canonical(lineage, x.fileA) && b.fileB == Canonical(lineage, x.fileB)) ||
        (b.fileB == Canonical(lineage, x.fileA) && b.fileA == Canonical(lineage, x.fileB)))
  }

  /** Behind each grandfathered finding stands a baseline finding under its canonical path that agrees with
      it, of a size that the advice names and that is no smaller. */
  lemma GrantedHasBaseline(current: Static, baseline: Static, changes: ChangeSet, kept: Static, g: Granting,
                           advice: seq<Advisory>)
    requires Ratcheted(current, baseline, changes, kept, g, advice)
    ensures forall d :: d in g.budgets ==>
              exists b :: b in baseline.budgets && BudgetBehind(changes.lineage, b, d)
    ensures forall d :: d in g.complexities ==>
              exists b :: b in baseline.complexities && ComplexityBehind(changes.lineage, b, d)
    ensures forall x :: x in g.suppressions ==>
              exists b :: b in baseline.suppressions && SuppressionBehind(changes.lineage, b, x)
    ensures forall x :: x in g.invariants ==>
              exists b :: b in baseline.invariants && InvariantBehind(changes.lineage, b, x)
    ensures forall x :: x in g.clones ==>
              exists b :: b in baseline.clones && CloneBehind(changes.lineage, b, x)
  {
    KeysTell(changes.lineage);
    MeasuresTell();
    hide NumericOutcome, CountRatchet;
    forall d | d in g.budgets ensures exists b :: b in baseline.budgets && BudgetBehind(changes.lineage, b, d) {
      NumericHasBaseline(BUDGETS, current.budgets, baseline.budgets, changes, kept.budgets, g.budgets, d);
    }
    forall d | d in g.complexities
      ensures exists b :: b in baseline.complexities && ComplexityBehind(changes.lineage, b, d)
    {
      NumericHasBaseline(COMPLEXITIES, current.complexities, baseline.complexities, changes, kept.complexities,
                         g.complexities, d);
    }
    forall x | x in g.suppressions
      ensures exists b :: b in baseline.suppressions && SuppressionBehind(changes.lineage, b, x)
    {
      CountedHasBaseline(SUPPRESSIONS, current.suppressions, baseline.suppressions, changes, kept.suppressions,
                         g.suppressions, x);
    }
    forall x | x in g.invariants
      ensures exists b :: b in baseline.invariants && InvariantBehind(changes.lineage, b, x)
    {
      CountedHasBaseline(INVARIANTS, current.invariants, baseline.invariants, changes, kept.invariants, g.invariants,
                         x);
    }
    forall x | x in g.clones ensures exists b :: b in baseline.clones && CloneBehind(changes.lineage, b, x) {
      CountedHasBaseline(CLONES, current.clones, baseline.clones, changes, kept.clones, g.clones, x);
    }
  }

  // ---------- the advice ----------

  /** The advice is about just the findings that were grandfathered. */
  lemma AdviceTells(g: Granting)
    ensures forall d :: OfBudget(d) in AllAdvice(g) <==> d in g.budgets
    ensures forall x :: OfSuppression(x) in AllAdvice(g) <==> x in g.suppressions
    ensures forall d :: OfComplexity(d) in AllAdvice(g) <==> d in g.complexities
    ensures forall x :: OfInvariant(x) in AllAdvice(g) <==> x in g.invariants
    ensures forall x :: OfClone(x) in AllAdvice(g) <==> x in g.clones
  {
    var a, n1 := AllAdvice(g), |g.budgets|;
    var n2 := n1 + |g.suppressions|;
    var n3 := n2 + |g.complexities|;
    var n4 := n3 + |g.invariants|;
    assert forall k :: 0 <= k < |g.budgets| ==> a[k] == OfBudget(g.budgets[k]);
    assert forall k :: 0 <= k < |g.suppressions| ==> a[n1 + k] == OfSuppression(g.suppressions[k]);
    assert forall k :: 0 <= k < |g.complexities| ==> a[n2 + k] == OfComplexity(g.complexities[k]);
    assert forall k :: 0 <= k < |g.invariants| ==> a[n3 + k] == OfInvariant(g.invariants[k]);
    assert forall k :: 0 <= k < |g.clones| ==> a[n4 + k] == OfClone(g.clones[k]);
  }
}
