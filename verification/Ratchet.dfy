/** The legacy ratchet: present static debt that the baseline already had becomes advice, the
    rest stays blocking.  The report's vectors shrink in place; each is proved against the
    best-fit assignment of `BestFit` or against exact counts. */
module Ratchet {
  import opened BestFit
  import opened PathOrder
  import opened RenameLineage
  import opened Wrappers

  datatype ChangeSet = ChangeSet(changedLines: map<Path, set<nat>>, changedFiles: set<Path>, lineage: Lineage)

  datatype Budget = Budget(file: Path, metric: string, actual: Measure)
  datatype Suppression = Suppression(file: Path, token: string, line: nat, words: seq<string>)
  datatype Complexity = Complexity(file: Path, name: string, metric: string, actual: Measure, line: nat, endLine: nat)
  datatype Invariant = Invariant(file: Path, rule: string, kind: string, target: string, line: nat, words: seq<string>)
  datatype Clone = Clone(fileA: Path, linesA: (nat, nat), fileB: Path, linesB: (nat, nat), fingerprint: string)

  // ---------- attribution to the change ----------

  predicate ChangedFile(path: Path, changes: ChangeSet) {
    path in changes.changedFiles || path in changes.changedLines
  }

  predicate ChangedLine(path: Path, line: nat, changes: ChangeSet) {
    path in changes.changedLines && line in changes.changedLines[path]
  }

  predicate ChangedRange(path: Path, first: nat, last: nat, changes: ChangeSet) {
    path in changes.changedLines && exists line :: line in changes.changedLines[path] && first <= line <= last
  }

  predicate BudgetAttributable(v: Budget, changes: ChangeSet) { ChangedFile(v.file, changes) }
  predicate SuppressionAttributable(v: Suppression, changes: ChangeSet) { ChangedLine(v.file, v.line, changes) }
  predicate ComplexityAttributable(v: Complexity, changes: ChangeSet) {
    ChangedRange(v.file, v.line, if v.endLine > v.line then v.endLine else v.line, changes)
  }
  predicate InvariantAttributable(v: Invariant, changes: ChangeSet) { ChangedLine(v.file, v.line, changes) }
  predicate CloneAttributable(v: Clone, changes: ChangeSet) {
    ChangedRange(v.fileA, v.linesA.0, v.linesA.1, changes) || ChangedRange(v.fileB, v.linesB.0, v.linesB.1, changes)
  }

  // ---------- keys ----------

  function BudgetKey(v: Budget, lineage: Lineage): (Path, string) {
    (Canonical(lineage, v.file), v.metric)
  }

  function SuppressionKey(v: Suppression, lineage: Lineage): (Path, string, seq<string>) {
    (Canonical(lineage, v.file), v.token, v.words)
  }

  function ComplexityKey(v: Complexity, lineage: Lineage): (Path, string, string) {
    (Canonical(lineage, v.file), v.name, v.metric)
  }

  function InvariantKey(v: Invariant, lineage: Lineage): (Path, string, string, string, seq<string>) {
    (Canonical(lineage, v.file), v.rule, v.kind, v.target, v.words)
  }

  function CloneKey(v: Clone, lineage: Lineage): (Path, Path, string) {
    var left, right := Canonical(lineage, v.fileA), Canonical(lineage, v.fileB);
    if NotAfter(left, right) then (left, right, v.fingerprint) else (right, left, v.fingerprint)
  }

  /** Two clone findings have one key exactly when they join the same two files, either way
      round, with the same fingerprint. */
  lemma CloneKeyIgnoresSides(v: Clone, w: Clone, lineage: Lineage)
    ensures CloneKey(v, lineage) == CloneKey(w, lineage) <==>
            && v.fingerprint == w.fingerprint
            && multiset{Canonical(lineage, v.fileA), Canonical(lineage, v.fileB)} ==
               multiset{Canonical(lineage, w.fileA), Canonical(lineage, w.fileB)}
  {
    var a, b := Canonical(lineage, v.fileA), Canonical(lineage, v.fileB);
    var c, d := Canonical(lineage, w.fileA), Canonical(lineage, w.fileB);
    PathOrderIsTotal(a, b);
    PathOrderIsTotal(c, d);
    if multiset{a, b} == multiset{c, d} {
      assert a in multiset{c, d} && c in multiset{a, b};
      assert multiset{a, b} - multiset{a} == multiset{b};
      if a == c {
        assert multiset{c, d} - multiset{a} == multiset{d};
        assert b in multiset{d};
      } else {
        assert a == d;
        assert multiset{c, d} - multiset{a} == multiset{c};
        assert b in multiset{c};
      }
    }
  }

  lemma EmptyLineageStays(path: Path)
    ensures Canonical(map[], path) == path
  {
  }

  /** Under a lineage that finds baseline paths, a finding has the key that the same finding has in the
      baseline under its old path: for every kind of finding. */
  lemma RenamedFindingsKeepTheirKeys(lineage: Lineage, b: Budget, s: Suppression, c: Complexity, i: Invariant,
                                     cl: Clone)
    requires lineage.Keys !! lineage.Values
    ensures BudgetKey(b, lineage) == BudgetKey(b.(file := BaselinePath(lineage, b.file)), map[])
    ensures SuppressionKey(s, lineage) == SuppressionKey(s.(file := BaselinePath(lineage, s.file)), map[])
    ensures ComplexityKey(c, lineage) == ComplexityKey(c.(file := BaselinePath(lineage, c.file)), map[])
    ensures InvariantKey(i, lineage) == InvariantKey(i.(file := BaselinePath(lineage, i.file)), map[])
    ensures CloneKey(cl, lineage) ==
            CloneKey(cl.(fileA := BaselinePath(lineage, cl.fileA), fileB := BaselinePath(lineage, cl.fileB)), map[])
  {
    forall path: Path ensures Canonical(lineage, path) == Canonical(map[], BaselinePath(lineage, path)) {
      DisjointLineageFindsBaseline(lineage, path);
      EmptyLineageStays(BaselinePath(lineage, path));
    }
  }

  // ---------- splitting a vector ----------

  /** `whole` is an interleaving of `kept` and `taken`: nothing lost, nothing added, both in order. */
  ghost predicate Interleaves<T(!new)>(whole: seq<T>, kept: seq<T>, taken: seq<T>) {
    if whole == [] then kept == [] && taken == []
    else
      || (kept != [] && kept[0] == whole[0] && Interleaves(whole[1..], kept[1..], taken))
      || (taken != [] && taken[0] == whole[0] && Interleaves(whole[1..], kept, taken[1..]))
  }

  lemma {:induction false} InterleavingConserves<T(!new)>(whole: seq<T>, kept: seq<T>, taken: seq<T>)
    requires Interleaves(whole, kept, taken)
    ensures |kept| + |taken| == |whole|
    ensures multiset(whole) == multiset(kept) + multiset(taken)
  {
    if whole != [] {
      assert whole == [whole[0]] + whole[1..];
      if kept != [] && kept[0] == whole[0] && Interleaves(whole[1..], kept[1..], taken) {
        InterleavingConserves(whole[1..], kept[1..], taken);
        assert kept == [kept[0]] + kept[1..];
      } else {
        InterleavingConserves(whole[1..], kept, taken[1..]);
        assert taken == [taken[0]] + taken[1..];
      }
    }
  }

  /** A finding that was grandfathered, with the baseline value it was measured against. */
  datatype Advice<T> = Advice(finding: T, baseline: Measure)

  function Findings<T>(advice: seq<Advice<T>>): (r: seq<T>)
    ensures |r| == |advice|
  {
    seq(|advice|, i requires 0 <= i < |advice| => advice[i].finding)
  }

  /** How one kind of numeric finding is ratcheted. */
  datatype Numeric<!T, !K> = Numeric(attributable: (T, ChangeSet) -> bool, key: (T, Lineage) -> K, actual: T -> Measure)

  /** The findings that the change does not own, as debts. */
  function Debts<T, K>(ops: Numeric<T, K>, current: seq<T>, changes: ChangeSet): seq<Debt<K>> {
    if current == [] then []
    else (if ops.attributable(current[0], changes) then []
          else [Debt(ops.key(current[0], changes.lineage), ops.actual(current[0]))]) +
         Debts(ops, current[1..], changes)
  }

  /** What stays and what is grandfathered when the debts get the values of `a`. */
  function Split<T, K>(ops: Numeric<T, K>, current: seq<T>, changes: ChangeSet, a: seq<Option<Measure>>)
    : (r: (seq<T>, seq<Advice<T>>))
    requires |a| == |Debts(ops, current, changes)|
  {
    if current == [] then ([], [])
    else if ops.attributable(current[0], changes) then
      var (kept, advice) := Split(ops, current[1..], changes, a);
      ([current[0]] + kept, advice)
    else
      assert a[1..] == a[1..];
      var (kept, advice) := Split(ops, current[1..], changes, a[1..]);
      if a[0].Some? then (kept, [Advice(current[0], a[0].value)] + advice) else ([current[0]] + kept, advice)
  }

  lemma {:induction false} SplitInterleaves<T(!new), K>(ops: Numeric<T, K>, current: seq<T>, changes: ChangeSet,
                                                        a: seq<Option<Measure>>)
    requires |a| == |Debts(ops, current, changes)|
    ensures var (kept, advice) := Split(ops, current, changes, a);
            Interleaves(current, kept, Findings(advice)) && |advice| == Covered(a)
  {
    if current != [] {
      var (kept, advice) := Split(ops, current, changes, a);
      if ops.attributable(current[0], changes) {
        SplitInterleaves(ops, current[1..], changes, a);
        assert kept[1..] == Split(ops, current[1..], changes, a).0;
      } else {
        SplitInterleaves(ops, current[1..], changes, a[1..]);
        var (rest, more) := Split(ops, current[1..], changes, a[1..]);
        if a[0].Some? {
          assert Findings(advice)[1..] == Findings(more);
        } else {
          assert kept[1..] == rest;
        }
      }
    }
  }

  // ---------- the baseline ----------

  function BaselineValues<T, K(==)>(ops: Numeric<T, K>, baseline: seq<T>, key: K): seq<Measure> {
    if baseline == [] then []
    else BaselineValues(ops, baseline[..|baseline| - 1], key) +
         if ops.key(baseline[|baseline| - 1], map[]) == key then [ops.actual(baseline[|baseline| - 1])] else []
  }

  function Insert(value: Measure, values: seq<Measure>): seq<Measure> {
    values[..FirstFit(values, value)] + [value] + values[FirstFit(values, value)..]
  }

  lemma InsertKeepsValues(value: Measure, values: seq<Measure>)
    ensures multiset(Insert(value, values)) == multiset(values) + multiset{value}
  {
    var i := FirstFit(values, value);
    assert values == values[..i] + values[i..];
  }

  lemma InsertKeepsOrder(value: Measure, values: seq<Measure>)
    requires Ascending(values)
    ensures Ascending(Insert(value, values))
  {
  }

  function Sorted(values: seq<Measure>): (r: seq<Measure>)
    ensures Ascending(r) && multiset(r) == multiset(values)
  {
    if values == [] then []
    else
      assert values == values[..|values| - 1] + [values[|values| - 1]];
      InsertKeepsValues(values[|values| - 1], Sorted(values[..|values| - 1]));
      InsertKeepsOrder(values[|values| - 1], Sorted(values[..|values| - 1]));
      Insert(values[|values| - 1], Sorted(values[..|values| - 1]))
  }

  /** The pool of the code: per key the baseline's values in ascending order. */
  ghost predicate IsPool<T, K(!new)>(ops: Numeric<T, K>, baseline: seq<T>, pool: Available<K>) {
    forall k :: Values(pool, k) == Sorted(BaselineValues(ops, baseline, k))
  }

  lemma PoolIsBaseline<T, K(!new)>(ops: Numeric<T, K>, baseline: seq<T>, pool: Available<K>)
    requires IsPool(ops, baseline, pool)
    ensures Ordered(pool)
    ensures forall k :: multiset(Values(pool, k)) == multiset(BaselineValues(ops, baseline, k))
  {
    forall k | k in pool
      ensures Ascending(pool[k])
    {
      assert Values(pool, k) == pool[k];
    }
  }

  method CollectValues<T, K(!new, ==)>(ops: Numeric<T, K>, baseline: seq<T>) returns (pool: Available<K>)
    ensures forall k :: Values(pool, k) == BaselineValues(ops, baseline, k)
  {
    pool := map[];
    for i := 0 to |baseline|
      invariant forall k :: Values(pool, k) == BaselineValues(ops, baseline[..i], k)
    {
      assert baseline[..i + 1][..i] == baseline[..i];
      var key := ops.key(baseline[i], map[]);
      pool := pool[key := Values(pool, key) + [ops.actual(baseline[i])]];
    }
    assert baseline[..|baseline|] == baseline;
  }

  method SortValues<K(!new, ==)>(unsorted: Available<K>) returns (pool: Available<K>)
    ensures pool.Keys == unsorted.Keys && forall k :: k in pool ==> pool[k] == Sorted(unsorted[k])
  {
    pool := unsorted;
    var todo := pool.Keys;
    while todo != {}
      invariant todo <= pool.Keys == unsorted.Keys
      invariant forall k :: k in pool ==> pool[k] == if k in todo then unsorted[k] else Sorted(unsorted[k])
    {
      var key :| key in todo;
      pool := pool[key := Sorted(pool[key])];
      todo := todo - {key};
    }
  }

  method BuildPool<T, K(!new, ==)>(ops: Numeric<T, K>, baseline: seq<T>) returns (pool: Available<K>)
    ensures IsPool(ops, baseline, pool)
  {
    var unsorted := CollectValues(ops, baseline);
    pool := SortValues(unsorted);
    forall k
      ensures Values(pool, k) == Sorted(BaselineValues(ops, baseline, k))
    {
      assert Values(unsorted, k) == BaselineValues(ops, baseline, k);
    }
  }

  // ---------- numeric findings ----------

  /** The outcome the ratchet owes for numeric findings, told without its algorithm: the vector is
      split in order, everything attributable stays, each grandfathered finding has its own
      baseline finding at least as large, and no assignment grandfathers more, in all or of any key. */
  ghost predicate NumericRatchet<T(!new), K(!new)>(ops: Numeric<T, K>, current: seq<T>, baseline: seq<T>,
                                                   changes: ChangeSet, kept: seq<T>, advice: seq<Advice<T>>) {
    && Interleaves(current, kept, Findings(advice))
    && (forall d :: d in advice ==> !ops.attributable(d.finding, changes) && ops.actual(d.finding) <= d.baseline)
    && (forall k :: multiset(Granted(ops, advice, changes, k)) <= multiset(BaselineValues(ops, baseline, k)))
    && forall pool, a :: IsPool(ops, baseline, pool) && Valid(Debts(ops, current, changes), pool, a) ==>
         && Covered(a) <= |advice|
         && forall k :: CoveredOf(Debts(ops, current, changes), a, k) <= |Granted(ops, advice, changes, k)|
  }

  /** The one outcome in which every finding in turn takes the smallest value that fits. */
  ghost predicate TakesSmallestFit<T(!new), K(!new)>(ops: Numeric<T, K>, current: seq<T>, baseline: seq<T>,
                                                     changes: ChangeSet, kept: seq<T>, advice: seq<Advice<T>>) {
    exists pool :: IsPool(ops, baseline, pool) && (kept, advice) == Outcome(ops, current, changes, pool)
  }

  /** The baseline values granted to findings of one key. */
  function Granted<T, K(==)>(ops: Numeric<T, K>, advice: seq<Advice<T>>, changes: ChangeSet, key: K): seq<Measure> {
    if advice == [] then []
    else (if ops.key(advice[0].finding, changes.lineage) == key then [advice[0].baseline] else []) +
         Granted(ops, advice[1..], changes, key)
  }

  /** What the first finding adds to the grants of a key. */
  lemma FirstGrant<T, K(!new)>(ops: Numeric<T, K>, current: seq<T>, changes: ChangeSet, a: seq<Option<Measure>>, k: K)
    requires current != [] && !ops.attributable(current[0], changes) && |a| == |Debts(ops, current, changes)|
    ensures Debts(ops, current, changes)[1..] == Debts(ops, current[1..], changes)
    ensures Granted(ops, Split(ops, current, changes, a).1, changes, k) ==
            (if Debts(ops, current, changes)[0].key == k && a[0].Some? then [a[0].value] else []) +
            Granted(ops, Split(ops, current[1..], changes, a[1..]).1, changes, k)
  {
    var advice := Split(ops, current, changes, a).1;
    if a[0].Some? {
      assert advice[1..] == Split(ops, current[1..], changes, a[1..]).1;
    }
  }

  lemma {:induction false} GrantedIsUsed<T, K(!new)>(ops: Numeric<T, K>, current: seq<T>, changes: ChangeSet,
                                                     a: seq<Option<Measure>>, k: K, v: Measure)
    requires |a| == |Debts(ops, current, changes)|
    ensures multiset(Granted(ops, Split(ops, current, changes, a).1, changes, k))[v] ==
            Used(Debts(ops, current, changes), a, k, v)
  {
    if current != [] {
      if ops.attributable(current[0], changes) {
        GrantedIsUsed(ops, current[1..], changes, a, k, v);
        assert Debts(ops, current, changes) == Debts(ops, current[1..], changes);
      } else {
        FirstGrant(ops, current, changes, a, k);
        GrantedIsUsed(ops, current[1..], changes, a[1..], k, v);
      }
    }
  }

  lemma {:induction false} AdviceIsJustified<T, K>(ops: Numeric<T, K>, current: seq<T>, changes: ChangeSet,
                                                   a: seq<Option<Measure>>)
    requires LargeEnough(Debts(ops, current, changes), a)
    ensures forall d :: d in Split(ops, current, changes, a).1 ==>
              !ops.attributable(d.finding, changes) && ops.actual(d.finding) <= d.baseline
  {
    if current != [] {
      var debts := Debts(ops, current, changes);
      if ops.attributable(current[0], changes) {
        assert debts == Debts(ops, current[1..], changes);
        AdviceIsJustified(ops, current[1..], changes, a);
      } else {
        assert debts[1..] == Debts(ops, current[1..], changes);
        AdviceIsJustified(ops, current[1..], changes, a[1..]);
      }
    }
  }

  /** Baseline values are granted no more often than the baseline has them. */
  lemma GrantsFitBaseline<T, K(!new)>(ops: Numeric<T, K>, current: seq<T>, baseline: seq<T>, changes: ChangeSet,
                                      pool: Available<K>, a: seq<Option<Measure>>, k: K)
    requires IsPool(ops, baseline, pool) && Valid(Debts(ops, current, changes), pool, a)
    ensures multiset(Granted(ops, Split(ops, current, changes, a).1, changes, k)) <=
            multiset(BaselineValues(ops, baseline, k))
  {
    PoolIsBaseline(ops, baseline, pool);
    var granted := multiset(Granted(ops, Split(ops, current, changes, a).1, changes, k));
    var has := multiset(BaselineValues(ops, baseline, k));
    forall v
      ensures granted[v] <= has[v]
    {
      GrantedIsUsed(ops, current, changes, a, k, v);
      assert Used(Debts(ops, current, changes), a, k, v) <= multiset(Values(pool, k))[v];
    }
  }

  /** Two pools of one baseline admit the same assignments. */
  lemma PoolsAgree<T, K(!new)>(ops: Numeric<T, K>, baseline: seq<T>, pool: Available<K>, other: Available<K>,
                               debts: seq<Debt<K>>, b: seq<Option<Measure>>)
    requires IsPool(ops, baseline, pool) && IsPool(ops, baseline, other) && Valid(debts, other, b)
    ensures Valid(debts, pool, b)
  {
  }

  lemma GreedySplitIsRatchet<T(!new), K(!new)>(ops: Numeric<T, K>, current: seq<T>, baseline: seq<T>,
                                               changes: ChangeSet, pool: Available<K>)
    requires IsPool(ops, baseline, pool)
    ensures var debts := Debts(ops, current, changes);
            var (kept, advice) := Split(ops, current, changes, Greedy(debts, pool));
            NumericRatchet(ops, current, baseline, changes, kept, advice)
  {
    var debts := Debts(ops, current, changes);
    var a := Greedy(debts, pool);
    var (kept, advice) := Split(ops, current, changes, a);
    PoolIsBaseline(ops, baseline, pool);
    GreedyIsValid(debts, pool);
    SplitInterleaves(ops, current, changes, a);
    AdviceIsJustified(ops, current, changes, a);
    forall k
      ensures multiset(Granted(ops, advice, changes, k)) <= multiset(BaselineValues(ops, baseline, k))
    {
      GrantsFitBaseline(ops, current, baseline, changes, pool, a, k);
    }
    forall other, b | IsPool(ops, baseline, other) && Valid(debts, other, b)
      ensures Covered(b) <= |advice|
      ensures forall k :: CoveredOf(debts, b, k) <= |Granted(ops, advice, changes, k)|
    {
      PoolsAgree(ops, baseline, pool, other, debts, b);
      GreedyIsOptimal(debts, pool, b);
      forall k ensures CoveredOf(debts, b, k) <= |Granted(ops, advice, changes, k)| {
        GrantedIsCovered(ops, current, changes, a, k);
      }
    }
  }

  lemma {:induction false} GrantedIsCovered<T, K(!new)>(ops: Numeric<T, K>, current: seq<T>, changes: ChangeSet,
                                                        a: seq<Option<Measure>>, k: K)
    requires |a| == |Debts(ops, current, changes)|
    ensures |Granted(ops, Split(ops, current, changes, a).1, changes, k)| ==
            CoveredOf(Debts(ops, current, changes), a, k)
  {
    if current != [] {
      if ops.attributable(current[0], changes) {
        GrantedIsCovered(ops, current[1..], changes, a, k);
        assert Debts(ops, current, changes) == Debts(ops, current[1..], changes);
      } else {
        FirstGrant(ops, current, changes, a, k);
        GrantedIsCovered(ops, current[1..], changes, a[1..], k);
      }
    }
  }

  /** What the retain still makes of a rest of the vector. */
  ghost function Outcome<T, K>(ops: Numeric<T, K>, current: seq<T>, changes: ChangeSet, available: Available<K>)
    : (seq<T>, seq<Advice<T>>)
  {
    Split(ops, current, changes, Greedy(Debts(ops, current, changes), available))
  }

  function DebtOf<T, K>(ops: Numeric<T, K>, violation: T, changes: ChangeSet): Debt<K> {
    Debt(ops.key(violation, changes.lineage), ops.actual(violation))
  }

  lemma OutcomeStep<T, K>(ops: Numeric<T, K>, current: seq<T>, changes: ChangeSet, available: Available<K>)
    requires current != []
    ensures ops.attributable(current[0], changes) ==>
              var rest := Outcome(ops, current[1..], changes, available);
              Outcome(ops, current, changes, available) == ([current[0]] + rest.0, rest.1)
    ensures !ops.attributable(current[0], changes) ==>
              var (taken, left) := Take(available, DebtOf(ops, current[0], changes));
              var rest := Outcome(ops, current[1..], changes, left);
              Outcome(ops, current, changes, available) ==
              if taken.Some? then (rest.0, [Advice(current[0], taken.value)] + rest.1)
              else ([current[0]] + rest.0, rest.1)
  {
    var debts := Debts(ops, current, changes);
    if ops.attributable(current[0], changes) {
      assert debts == Debts(ops, current[1..], changes);
    } else {
      assert debts[1..] == Debts(ops, current[1..], changes);
      assert Greedy(debts, available)[1..] == Greedy(debts[1..], Take(available, debts[0]).1);
    }
  }

  /** What is done and what the rest still makes give the whole outcome. */
  ghost predicate SoFar<T>(whole: (seq<T>, seq<Advice<T>>), kept: seq<T>, advice: seq<Advice<T>>,
                              rest: (seq<T>, seq<Advice<T>>)) {
    whole == (kept + rest.0, advice + rest.1)
  }

  lemma SoFarStarts<T>(whole: (seq<T>, seq<Advice<T>>))
    ensures SoFar(whole, [], [], whole)
  {
    assert [] + whole.0 == whole.0 && [] + whole.1 == whole.1;
  }

  lemma SoFarEnds<T>(whole: (seq<T>, seq<Advice<T>>), kept: seq<T>, advice: seq<Advice<T>>)
    requires SoFar(whole, kept, advice, ([], []))
    ensures whole == (kept, advice)
  {
    assert kept + [] == kept && advice + [] == advice;
  }

  lemma SoFarMoves<T>(whole: (seq<T>, seq<Advice<T>>), kept: seq<T>, advice: seq<Advice<T>>,
                      x: T, granted: Option<Measure>, rest: (seq<T>, seq<Advice<T>>))
    requires SoFar(whole, kept, advice,
                   if granted.Some? then (rest.0, [Advice(x, granted.value)] + rest.1) else ([x] + rest.0, rest.1))
    ensures granted.Some? ==> SoFar(whole, kept, advice + [Advice(x, granted.value)], rest)
    ensures granted.None? ==> SoFar(whole, kept + [x], advice, rest)
  {
    if granted.Some? {
      assert advice + ([Advice(x, granted.value)] + rest.1) == advice + [Advice(x, granted.value)] + rest.1;
    } else {
      assert kept + ([x] + rest.0) == kept + [x] + rest.0;
    }
  }

  /** One finding of the retain: whether it is granted a value, and what stays available. */
  method RetainOne<T(!new), K(!new, ==)>(ops: Numeric<T, K>, violation: T, changes: ChangeSet, available: Available<K>)
    returns (granted: Option<Measure>, left: Available<K>)
    ensures if ops.attributable(violation, changes) then granted == None && left == available
            else (granted, left) == Take(available, DebtOf(ops, violation, changes))
  {
    granted, left := None, available;
    if ops.attributable(violation, changes) {
      return;
    }
    var key := ops.key(violation, changes.lineage);
    if key !in available {
      return;
    }
    var values := available[key];
    var index := FirstFit(values, ops.actual(violation));
    if index == |values| {
      return;
    }
    granted := Some(values[index]);
    left := available[key := Without(values, index)];
  }

  /** The in-place retain: findings leave the vector as values leave the pool. */
  method RatchetNumeric<T(!new), K(!new, ==)>(ops: Numeric<T, K>, current: seq<T>, baseline: seq<T>, changes: ChangeSet)
    returns (kept: seq<T>, advice: seq<Advice<T>>)
    ensures NumericRatchet(ops, current, baseline, changes, kept, advice)
    ensures TakesSmallestFit(ops, current, baseline, changes, kept, advice)
    ensures |kept| + |advice| == |current|
  {
    var available := BuildPool(ops, baseline);
    ghost var pool := available;
    kept, advice := [], [];
    ghost var whole := Outcome(ops, current, changes, pool);
    SoFarStarts(whole);
    assert current[0..] == current;
    for i := 0 to |current|
      invariant SoFar(whole, kept, advice, Outcome(ops, current[i..], changes, available))
    {
      OutcomeStep(ops, current[i..], changes, available);
      assert current[i..][1..] == current[i + 1..];
      var granted;
      granted, available := RetainOne(ops, current[i], changes, available);
      SoFarMoves(whole, kept, advice, current[i], granted, Outcome(ops, current[i + 1..], changes, available));
      if granted.Some? {
        advice := advice + [Advice(current[i], granted.value)];
      } else {
        kept := kept + [current[i]];
      }
    }
    SoFarEnds(whole, kept, advice);
    GreedySplitIsRatchet(ops, current, baseline, changes, pool);
    InterleavingConserves(current, kept, Findings(advice));
  }

  // ---------- counted findings ----------

  /** How one kind of finding without a measure is ratcheted. */
  datatype Counted<!T, !K> = Counted(attributable: (T, ChangeSet) -> bool, key: (T, Lineage) -> K, eligible: T -> bool)

  function BaselineCount<T, K(==)>(ops: Counted<T, K>, baseline: seq<T>, key: K): nat {
    if baseline == [] then 0
    else
      var last := baseline[|baseline| - 1];
      BaselineCount(ops, baseline[..|baseline| - 1], key) +
      if ops.eligible(last) && ops.key(last, map[]) == key then 1 else 0
  }

  predicate Candidate<T, K>(ops: Counted<T, K>, violation: T, changes: ChangeSet) {
    ops.eligible(violation) && !ops.attributable(violation, changes)
  }

  /** How many findings of a key could be grandfathered. */
  function CandidateCount<T, K(==)>(ops: Counted<T, K>, current: seq<T>, changes: ChangeSet, key: K): nat {
    if current == [] then 0
    else
      var last := current[|current| - 1];
      CandidateCount(ops, current[..|current| - 1], changes, key) +
      if Candidate(ops, last, changes) && ops.key(last, changes.lineage) == key then 1 else 0
  }

  function Min(a: nat, b: nat): nat { if a <= b then a else b }

  /** A finding goes when it is a candidate and fewer candidates of its key come before it than the
      baseline has findings of that key. */
  predicate Excused<T, K(==)>(ops: Counted<T, K>, before: seq<T>, violation: T, baseline: seq<T>, changes: ChangeSet) {
    && Candidate(ops, violation, changes)
    && var key := ops.key(violation, changes.lineage);
       CandidateCount(ops, before, changes, key) < BaselineCount(ops, baseline, key)
  }

  /** What stays and what goes, in order. */
  function FirstCome<T, K(==)>(ops: Counted<T, K>, current: seq<T>, baseline: seq<T>, changes: ChangeSet)
    : (seq<T>, seq<T>)
  {
    if current == [] then ([], [])
    else
      var before, last := current[..|current| - 1], current[|current| - 1];
      var (kept, taken) := FirstCome(ops, before, baseline, changes);
      if Excused(ops, before, last, baseline, changes) then (kept, taken + [last]) else (kept + [last], taken)
  }

  /** The outcome the ratchet owes for counted findings: the vector is split in order, only
      candidates go, of each key as many go as both sides have, and the first ones go. */
  ghost predicate CountRatchet<T(!new), K(!new)>(ops: Counted<T, K>, current: seq<T>, baseline: seq<T>,
                                                 changes: ChangeSet, kept: seq<T>, taken: seq<T>) {
    && Interleaves(current, kept, taken)
    && (forall v :: v in taken ==> Candidate(ops, v, changes))
    && (forall k :: CandidateCount(ops, taken, changes, k) ==
                    Min(CandidateCount(ops, current, changes, k), BaselineCount(ops, baseline, k)))
    && (kept, taken) == FirstCome(ops, current, baseline, changes)
  }

  lemma {:induction false} InterleavesAppend<T(!new)>(whole: seq<T>, kept: seq<T>, taken: seq<T>, x: T)
    requires Interleaves(whole, kept, taken)
    ensures Interleaves(whole + [x], kept + [x], taken)
    ensures Interleaves(whole + [x], kept, taken + [x])
  {
    if whole == [] {
      assert (whole + [x])[1..] == [] && (kept + [x])[1..] == [] && (taken + [x])[1..] == [];
    } else {
      assert (whole + [x])[1..] == whole[1..] + [x];
      if kept != [] && kept[0] == whole[0] && Interleaves(whole[1..], kept[1..], taken) {
        InterleavesAppend(whole[1..], kept[1..], taken, x);
        assert (kept + [x])[1..] == kept[1..] + [x];
      } else {
        InterleavesAppend(whole[1..], kept, taken[1..], x);
        assert (taken + [x])[1..] == taken[1..] + [x];
      }
    }
  }

  lemma CountsAppend<T, K(!new)>(ops: Counted<T, K>, prefix: seq<T>, x: T, changes: ChangeSet)
    ensures forall k :: CandidateCount(ops, prefix + [x], changes, k) == CandidateCount(ops, prefix, changes, k) +
                        if Candidate(ops, x, changes) && ops.key(x, changes.lineage) == k then 1 else 0
  {
  }

  function Count<K>(available: map<K, nat>, key: K): nat {
    if key in available then available[key] else 0
  }

  method CountBaseline<T, K(!new, ==)>(ops: Counted<T, K>, baseline: seq<T>) returns (available: map<K, nat>)
    ensures forall k :: Count(available, k) == BaselineCount(ops, baseline, k)
  {
    available := map[];
    for i := 0 to |baseline|
      invariant forall k :: Count(available, k) == BaselineCount(ops, baseline[..i], k)
    {
      assert baseline[..i + 1][..i] == baseline[..i];
      if ops.eligible(baseline[i]) {
        var key := ops.key(baseline[i], map[]);
        available := available[key := Count(available, key) + 1];
      }
    }
    assert baseline[..|baseline|] == baseline;
  }

  lemma CountRatchetMoves<T(!new), K(!new)>(ops: Counted<T, K>, before: seq<T>, violation: T, baseline: seq<T>,
                                            changes: ChangeSet, kept: seq<T>, taken: seq<T>)
    requires CountRatchet(ops, before, baseline, changes, kept, taken)
    ensures if Excused(ops, before, violation, baseline, changes)
            then CountRatchet(ops, before + [violation], baseline, changes, kept, taken + [violation])
            else CountRatchet(ops, before + [violation], baseline, changes, kept + [violation], taken)
  {
    var current := before + [violation];
    assert current[..|current| - 1] == before;
    CountsAppend(ops, before, violation, changes);
    CountsAppend(ops, taken, violation, changes);
    InterleavesAppend(before, kept, taken, violation);
  }

  /** What is left of the baseline's counts. */
  ghost predicate LeftOver<T(!new), K(!new)>(ops: Counted<T, K>, baseline: seq<T>, changes: ChangeSet, taken: seq<T>,
                                             available: map<K, nat>) {
    forall k :: Count(available, k) + CandidateCount(ops, taken, changes, k) == BaselineCount(ops, baseline, k)
  }

  lemma LeftOverFalls<T(!new), K(!new)>(ops: Counted<T, K>, baseline: seq<T>, changes: ChangeSet, taken: seq<T>,
                                        available: map<K, nat>, violation: T)
    requires LeftOver(ops, baseline, changes, taken, available) && Candidate(ops, violation, changes)
    requires Count(available, ops.key(violation, changes.lineage)) > 0
    ensures var key := ops.key(violation, changes.lineage);
            key in available &&
            LeftOver(ops, baseline, changes, taken + [violation], available[key := available[key] - 1])
  {
  }

  lemma ExcusedWhileLeft<T(!new), K(!new)>(ops: Counted<T, K>, before: seq<T>, violation: T, baseline: seq<T>,
                                           changes: ChangeSet, kept: seq<T>, taken: seq<T>, available: map<K, nat>)
    requires CountRatchet(ops, before, baseline, changes, kept, taken)
    requires LeftOver(ops, baseline, changes, taken, available)
    ensures Excused(ops, before, violation, baseline, changes) <==>
            Candidate(ops, violation, changes) && Count(available, ops.key(violation, changes.lineage)) > 0
  {
  }

  /** The in-place retain: the count of a key falls with each finding that goes. */
  method RatchetMultiset<T(!new), K(!new, ==)>(ops: Counted<T, K>, current: seq<T>, baseline: seq<T>,
                                               changes: ChangeSet)
    returns (kept: seq<T>, taken: seq<T>)
    ensures CountRatchet(ops, current, baseline, changes, kept, taken)
    ensures |kept| + |taken| == |current|
  {
    var available := CountBaseline(ops, baseline);
    kept, taken := [], [];
    for i := 0 to |current|
      invariant CountRatchet(ops, current[..i], baseline, changes, kept, taken)
      invariant LeftOver(ops, baseline, changes, taken, available)
    {
      var violation := current[i];
      assert current[..i + 1] == current[..i] + [violation];
      CountRatchetMoves(ops, current[..i], violation, baseline, changes, kept, taken);
      ExcusedWhileLeft(ops, current[..i], violation, baseline, changes, kept, taken, available);
      if !ops.eligible(violation) || ops.attributable(violation, changes) {
        kept := kept + [violation];
        continue;
      }
      var key := ops.key(violation, changes.lineage);
      if key !in available || available[key] == 0 {
        kept := kept + [violation];
        continue;
      }
      LeftOverFalls(ops, baseline, changes, taken, available, violation);
      available := available[key := available[key] - 1];
      taken := taken + [violation];
    }
    assert current[..|current|] == current;
    InterleavingConserves(current, kept, taken);
  }

  // ---------- more baseline debt ----------

  ghost predicate NumericOutcome<T(!new), K(!new)>(ops: Numeric<T, K>, current: seq<T>, baseline: seq<T>,
                                                   changes: ChangeSet, kept: seq<T>, advice: seq<Advice<T>>) {
    && NumericRatchet(ops, current, baseline, changes, kept, advice)
    && TakesSmallestFit(ops, current, baseline, changes, kept, advice)
  }

  /** More baseline debt never grandfathers less. */
  lemma MoreBaselineGrandfathersMore<T(!new), K(!new)>(ops: Numeric<T, K>, current: seq<T>, fewer: seq<T>, more: seq<T>,
                                                       changes: ChangeSet, kept: seq<T>, advice: seq<Advice<T>>,
                                                       otherKept: seq<T>, otherAdvice: seq<Advice<T>>)
    requires TakesSmallestFit(ops, current, fewer, changes, kept, advice)
    requires TakesSmallestFit(ops, current, more, changes, otherKept, otherAdvice)
    requires forall k :: multiset(BaselineValues(ops, fewer, k)) <= multiset(BaselineValues(ops, more, k))
    ensures |advice| <= |otherAdvice|
  {
    var small :| IsPool(ops, fewer, small) && (kept, advice) == Outcome(ops, current, changes, small);
    var large :| IsPool(ops, more, large) && (otherKept, otherAdvice) == Outcome(ops, current, changes, large);
    PoolIsBaseline(ops, fewer, small);
    PoolIsBaseline(ops, more, large);
    var debts := Debts(ops, current, changes);
    forall k ensures multiset(Values(small, k)) <= multiset(Values(large, k)) {
      assert multiset(BaselineValues(ops, fewer, k)) <= multiset(BaselineValues(ops, more, k));
    }
    MoreBaselineCoversMore(debts, small, large);
    SplitInterleaves(ops, current, changes, Greedy(debts, small));
    SplitInterleaves(ops, current, changes, Greedy(debts, large));
  }

  /** More baseline debt never excuses fewer findings that are only counted. */
  lemma {:induction false} MoreBaselineExcusesMore<T(!new), K(!new)>(ops: Counted<T, K>, current: seq<T>, fewer: seq<T>,
                                                                    more: seq<T>, changes: ChangeSet)
    requires forall k :: BaselineCount(ops, fewer, k) <= BaselineCount(ops, more, k)
    ensures |FirstCome(ops, current, fewer, changes).1| <= |FirstCome(ops, current, more, changes).1|
  {
    if current != [] {
      MoreBaselineExcusesMore(ops, current[..|current| - 1], fewer, more, changes);
    }
  }

  lemma WithoutOfPrefix<T>(s: seq<T>, i: nat)
    requires i < |s| - 1
    ensures var rest := Without(s, i);
            rest[|rest| - 1] == s[|s| - 1] && rest[..|rest| - 1] == Without(s[..|s| - 1], i)
  {
  }

  lemma LastValue<T, K>(ops: Numeric<T, K>, s: seq<T>, key: K)
    requires s != []
    ensures var last := s[|s| - 1];
            multiset(BaselineValues(ops, s, key)) == multiset(BaselineValues(ops, s[..|s| - 1], key)) +
            if ops.key(last, map[]) == key then multiset{ops.actual(last)} else multiset{}
  {
  }

  lemma {:induction false} ValuesWithout<T, K>(ops: Numeric<T, K>, s: seq<T>, i: nat, key: K)
    requires i < |s|
    ensures multiset(BaselineValues(ops, s, key)) == multiset(BaselineValues(ops, Without(s, i), key)) +
            if ops.key(s[i], map[]) == key then multiset{ops.actual(s[i])} else multiset{}
  {
    if i == |s| - 1 {
      assert Without(s, i) == s[..i];
    } else {
      WithoutOfPrefix(s, i);
      ValuesWithout(ops, s[..|s| - 1], i, key);
      LastValue(ops, s, key);
      LastValue(ops, Without(s, i), key);
    }
  }

  lemma {:induction false} CountWithout<T, K>(ops: Counted<T, K>, s: seq<T>, i: nat, key: K)
    requires i < |s|
    ensures BaselineCount(ops, s, key) == BaselineCount(ops, Without(s, i), key) +
            if ops.eligible(s[i]) && ops.key(s[i], map[]) == key then 1 else 0
  {
    if i == |s| - 1 {
      assert Without(s, i) == s[..i];
    } else {
      WithoutOfPrefix(s, i);
      CountWithout(ops, s[..|s| - 1], i, key);
    }
  }

  /** A finding of the smaller collection, found in the larger one. */
  lemma MatchLast<T>(fewer: seq<T>, more: seq<T>) returns (i: nat)
    requires fewer != [] && multiset(fewer) <= multiset(more)
    ensures i < |more| && more[i] == fewer[|fewer| - 1]
    ensures multiset(Without(fewer, |fewer| - 1)) <= multiset(Without(more, i))
  {
    var last := fewer[|fewer| - 1];
    assert last in multiset(fewer) && last in multiset(more);
    i :| 0 <= i < |more| && more[i] == last;
    WithoutIsRemoval(more, i);
    WithoutIsRemoval(fewer, |fewer| - 1);
    CancelOne(multiset(Without(fewer, |fewer| - 1)), multiset(Without(more, i)), last);
  }

  lemma CancelOne<T>(a: multiset<T>, b: multiset<T>, x: T)
    requires a + multiset{x} <= b + multiset{x}
    ensures a <= b
  {
    forall y | y in a ensures a[y] <= b[y] {
      assert (a + multiset{x})[y] <= (b + multiset{x})[y];
    }
  }

  lemma {:induction false} AddedValues<T, K>(ops: Numeric<T, K>, fewer: seq<T>, more: seq<T>, key: K)
    requires multiset(fewer) <= multiset(more)
    ensures multiset(BaselineValues(ops, fewer, key)) <= multiset(BaselineValues(ops, more, key))
    decreases |fewer|
  {
    if fewer != [] {
      var i := MatchLast(fewer, more);
      AddedValues(ops, Without(fewer, |fewer| - 1), Without(more, i), key);
      ValuesWithout(ops, more, i, key);
      ValuesWithout(ops, fewer, |fewer| - 1, key);
    }
  }

  lemma {:induction false} AddedCounts<T, K>(ops: Counted<T, K>, fewer: seq<T>, more: seq<T>, key: K)
    requires multiset(fewer) <= multiset(more)
    ensures BaselineCount(ops, fewer, key) <= BaselineCount(ops, more, key)
    decreases |fewer|
  {
    if fewer != [] {
      var i := MatchLast(fewer, more);
      AddedCounts(ops, Without(fewer, |fewer| - 1), Without(more, i), key);
      CountWithout(ops, more, i, key);
      CountWithout(ops, fewer, |fewer| - 1, key);
    }
  }

  /** Adding debt to the baseline never retains more numeric findings. */
  lemma AddedDebtRetainsNoMoreNumeric<T(!new), K(!new)>(ops: Numeric<T, K>, current: seq<T>, fewer: seq<T>,
                                                        more: seq<T>, changes: ChangeSet, kept: seq<T>,
                                                        advice: seq<Advice<T>>,
                                                        keptMore: seq<T>, adviceMore: seq<Advice<T>>)
    requires NumericOutcome(ops, current, fewer, changes, kept, advice)
    requires NumericOutcome(ops, current, more, changes, keptMore, adviceMore)
    requires multiset(fewer) <= multiset(more)
    ensures |keptMore| <= |kept| && |advice| <= |adviceMore|
  {
    forall k ensures multiset(BaselineValues(ops, fewer, k)) <= multiset(BaselineValues(ops, more, k)) {
      AddedValues(ops, fewer, more, k);
    }
    MoreBaselineGrandfathersMore(ops, current, fewer, more, changes, kept, advice, keptMore, adviceMore);
    InterleavingConserves(current, kept, Findings(advice));
    InterleavingConserves(current, keptMore, Findings(adviceMore));
  }

  /** Adding debt to the baseline never retains more counted findings. */
  lemma AddedDebtRetainsNoMoreCounted<T(!new), K(!new)>(ops: Counted<T, K>, current: seq<T>, fewer: seq<T>,
                                                        more: seq<T>, changes: ChangeSet, kept: seq<T>, taken: seq<T>,
                                                        keptMore: seq<T>, takenMore: seq<T>)
    requires CountRatchet(ops, current, fewer, changes, kept, taken)
    requires CountRatchet(ops, current, more, changes, keptMore, takenMore)
    requires multiset(fewer) <= multiset(more)
    ensures |keptMore| <= |kept| && |taken| <= |takenMore|
  {
    forall k ensures BaselineCount(ops, fewer, k) <= BaselineCount(ops, more, k) {
      AddedCounts(ops, fewer, more, k);
    }
    MoreBaselineExcusesMore(ops, current, fewer, more, changes);
    InterleavingConserves(current, kept, taken);
    InterleavingConserves(current, keptMore, takenMore);
  }
}
