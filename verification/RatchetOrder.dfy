/** The order in which findings are reported does not matter to the ratchet of numeric findings. */
module RatchetOrder {
  import opened BestFit
  import opened Ratchet
  import opened RenameLineage
  import opened Wrappers

  ghost function OwnDebt<T, K>(ops: Numeric<T, K>, finding: T, changes: ChangeSet): multiset<Debt<K>> {
    if ops.attributable(finding, changes) then multiset{}
    else multiset{Debt(ops.key(finding, changes.lineage), ops.actual(finding))}
  }

  lemma FirstDebt<T, K>(ops: Numeric<T, K>, s: seq<T>, changes: ChangeSet)
    requires s != []
    ensures multiset(Debts(ops, s, changes)) == OwnDebt(ops, s[0], changes) + multiset(Debts(ops, s[1..], changes))
  {
  }

  lemma Swapped<D>(whole: multiset<D>, first: multiset<D>, own: multiset<D>, rest: multiset<D>, both: multiset<D>,
                   without: multiset<D>)
    requires whole == first + rest && rest == own + both && without == first + both
    ensures whole == own + without
  {
  }

  lemma {:induction false} DebtsWithout<T, K>(ops: Numeric<T, K>, s: seq<T>, i: nat, changes: ChangeSet)
    requires i < |s|
    ensures multiset(Debts(ops, s, changes)) ==
            OwnDebt(ops, s[i], changes) + multiset(Debts(ops, Without(s, i), changes))
  {
    hide OwnDebt;
    FirstDebt(ops, s, changes);
    if i == 0 {
      assert Without(s, 0) == s[1..];
    } else {
      DebtsWithout(ops, s[1..], i - 1, changes);
      FirstOfWithout(s, i);
      FirstDebt(ops, Without(s, i), changes);
      Swapped(multiset(Debts(ops, s, changes)), OwnDebt(ops, s[0], changes), OwnDebt(ops, s[i], changes),
              multiset(Debts(ops, s[1..], changes)), multiset(Debts(ops, Without(s[1..], i - 1), changes)),
              multiset(Debts(ops, Without(s, i), changes)));
    }
  }

  lemma FirstOfWithout<T>(s: seq<T>, i: nat)
    requires 0 < i < |s|
    ensures Without(s, i)[0] == s[0] && Without(s, i)[1..] == Without(s[1..], i - 1)
  {
  }

  lemma WithoutFirst<T>(s: seq<T>, t: seq<T>) returns (i: nat)
    requires multiset(s) == multiset(t) && s != []
    ensures i < |t| && t[i] == s[0] && multiset(s[1..]) == multiset(Without(t, i))
  {
    assert s[0] in multiset(t);
    i :| 0 <= i < |t| && t[i] == s[0];
    WithoutIsRemoval(t, i);
    WithoutIsRemoval(s, 0);
    assert Without(s, 0) == s[1..];
    CancelOne(multiset(s[1..]), multiset(Without(t, i)), s[0]);
    CancelOne(multiset(Without(t, i)), multiset(s[1..]), s[0]);
  }

  /** The debts of reordered findings are the reordered debts. */
  lemma {:induction false} DebtsReordered<T, K>(ops: Numeric<T, K>, s: seq<T>, t: seq<T>, changes: ChangeSet)
    requires multiset(s) == multiset(t)
    ensures multiset(Debts(ops, s, changes)) == multiset(Debts(ops, t, changes))
    decreases |s|
  {
    if s == [] {
      assert |multiset(t)| == 0;
    } else {
      hide OwnDebt;
      var i := WithoutFirst(s, t);
      DebtsReordered(ops, s[1..], Without(t, i), changes);
      FirstDebt(ops, s, changes);
      DebtsWithout(ops, t, i, changes);
    }
  }

  /** For reordered findings the ratchet retains as many and grants as many values of each key. */
  lemma FindingOrderDoesNotMatter<T(!new), K(!new)>(ops: Numeric<T, K>, current: seq<T>, other: seq<T>,
                                                    baseline: seq<T>, changes: ChangeSet,
                                                    kept: seq<T>, advice: seq<Advice<T>>,
                                                    otherKept: seq<T>, otherAdvice: seq<Advice<T>>)
    requires multiset(current) == multiset(other)
    requires NumericOutcome(ops, current, baseline, changes, kept, advice)
    requires NumericOutcome(ops, other, baseline, changes, otherKept, otherAdvice)
    ensures |advice| == |otherAdvice| && |kept| == |otherKept|
    ensures forall k :: |Granted(ops, advice, changes, k)| == |Granted(ops, otherAdvice, changes, k)|
  {
    NoWorseReordered(ops, current, other, baseline, changes, kept, advice, otherKept, otherAdvice);
    NoWorseReordered(ops, other, current, baseline, changes, otherKept, otherAdvice, kept, advice);
    InterleavingConserves(current, kept, Findings(advice));
    InterleavingConserves(other, otherKept, Findings(otherAdvice));
    assert |current| == |multiset(current)| == |multiset(other)| == |other|;
  }

  lemma NoWorseReordered<T(!new), K(!new)>(ops: Numeric<T, K>, current: seq<T>, other: seq<T>,
                                           baseline: seq<T>, changes: ChangeSet,
                                           kept: seq<T>, advice: seq<Advice<T>>,
                                           otherKept: seq<T>, otherAdvice: seq<Advice<T>>)
    requires multiset(current) == multiset(other)
    requires TakesSmallestFit(ops, current, baseline, changes, kept, advice)
    requires NumericRatchet(ops, other, baseline, changes, otherKept, otherAdvice)
    ensures |advice| <= |otherAdvice|
    ensures forall k :: |Granted(ops, advice, changes, k)| <= |Granted(ops, otherAdvice, changes, k)|
  {
    var pool :| IsPool(ops, baseline, pool) && (kept, advice) == Outcome(ops, current, changes, pool);
    var debts, others := Debts(ops, current, changes), Debts(ops, other, changes);
    PoolIsBaseline(ops, baseline, pool);
    DebtsReordered(ops, current, other, changes);
    OrderDoesNotMatter(debts, others, pool);
    GreedyIsValid(others, pool);
    SplitInterleaves(ops, current, changes, Greedy(debts, pool));
    forall k ensures |Granted(ops, advice, changes, k)| <= |Granted(ops, otherAdvice, changes, k)| {
      GrantedIsCovered(ops, current, changes, Greedy(debts, pool), k);
    }
  }
}
