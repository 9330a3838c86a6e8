/** The best-fit assignment of present findings to baseline findings, and why no other
    assignment covers more, whatever the order the findings come in. */
module BestFit {
  import opened Wrappers

  /** Measures are compared and never computed with. */
  type Measure = real

  /** A present finding that the change did not touch: its key and its measure. */
  datatype Debt<K> = Debt(key: K, actual: Measure)
  type Available<!K> = map<K, seq<Measure>>

  ghost predicate Ascending(values: seq<Measure>) {
    forall i, j :: 0 <= i < j < |values| ==> values[i] <= values[j]
  }

  function Values<K>(available: Available<K>, key: K): seq<Measure> {
    if key in available then available[key] else []
  }

  ghost predicate Ordered<K>(available: Available<K>) {
    forall k :: k in available ==> Ascending(available[k])
  }

  /** The first value that is not below the measure, or the length. */
  function FirstFit(values: seq<Measure>, actual: Measure): (index: nat)
    ensures index <= |values|
    ensures forall i :: 0 <= i < index ==> values[i] < actual
    ensures index < |values| ==> actual <= values[index]
  {
    if values == [] || actual <= values[0] then 0 else 1 + FirstFit(values[1..], actual)
  }

  function Without<T>(s: seq<T>, index: nat): seq<T>
    requires index < |s|
  {
    s[..index] + s[index + 1..]
  }

  /** What one finding takes and what stays available. */
  function Take<K>(available: Available<K>, debt: Debt<K>): (Option<Measure>, Available<K>) {
    var values := Values(available, debt.key);
    var index := FirstFit(values, debt.actual);
    if index == |values| then (None, available)
    else (Some(values[index]), available[debt.key := Without(values, index)])
  }

  /** The assignment that the ratchet makes, finding by finding. */
  function Greedy<K>(debts: seq<Debt<K>>, available: Available<K>): (a: seq<Option<Measure>>)
    ensures |a| == |debts|
  {
    if debts == [] then []
    else [Take(available, debts[0]).0] + Greedy(debts[1..], Take(available, debts[0]).1)
  }

  // ---------- assignments ----------

  function Uses<K(==)>(debt: Debt<K>, taken: Option<Measure>, key: K, value: Measure): nat {
    if debt.key == key && taken == Some(value) then 1 else 0
  }

  /** How often an assignment uses a baseline value of a key. */
  function Used<K(==)>(debts: seq<Debt<K>>, a: seq<Option<Measure>>, key: K, value: Measure): nat
    requires |a| == |debts|
  {
    if debts == [] then 0 else Uses(debts[0], a[0], key, value) + Used(debts[1..], a[1..], key, value)
  }

  function Covers<K(==)>(debt: Debt<K>, taken: Option<Measure>, key: K): nat {
    if debt.key == key && taken.Some? then 1 else 0
  }

  /** How many findings of a key an assignment covers. */
  function CoveredOf<K(==)>(debts: seq<Debt<K>>, a: seq<Option<Measure>>, key: K): nat
    requires |a| == |debts|
  {
    if debts == [] then 0 else Covers(debts[0], a[0], key) + CoveredOf(debts[1..], a[1..], key)
  }

  /** How many findings an assignment covers. */
  function Covered(a: seq<Option<Measure>>): nat {
    if a == [] then 0 else (if a[0].Some? then 1 else 0) + Covered(a[1..])
  }

  ghost predicate LargeEnough<K>(debts: seq<Debt<K>>, a: seq<Option<Measure>>) {
    |a| == |debts| && forall i :: 0 <= i < |a| && a[i].Some? ==> debts[i].actual <= a[i].value
  }

  /** Each covered finding has its own baseline finding of the same key, at least as large. */
  ghost predicate Valid<K(!new)>(debts: seq<Debt<K>>, available: Available<K>, a: seq<Option<Measure>>) {
    && LargeEnough(debts, a)
    && forall k, v :: Used(debts, a, k, v) <= multiset(Values(available, k))[v]
  }

  lemma WithoutIsRemoval<T>(s: seq<T>, index: nat)
    requires index < |s|
    ensures multiset(s) == multiset(Without(s, index)) + multiset{s[index]}
  {
    assert s == s[..index] + [s[index]] + s[index + 1..];
  }

  lemma FirstFitIsLeast(values: seq<Measure>, actual: Measure, other: Measure)
    requires Ascending(values) && other in values && actual <= other
    ensures FirstFit(values, actual) < |values| && values[FirstFit(values, actual)] <= other
  {
  }

  lemma WithoutCounts(values: seq<Measure>, index: nat)
    requires index < |values|
    ensures forall v ::
              multiset(Without(values, index))[v] + (if v == values[index] then 1 else 0) == multiset(values)[v]
  {
    WithoutIsRemoval(values, index);
    assert values[index] in values;
  }

  lemma LeftKeepsOrder<K(!new)>(available: Available<K>, debt: Debt<K>)
    requires Ordered(available)
    ensures Ordered(Take(available, debt).1)
  {
  }

  lemma LeftAfterTake<K(!new)>(available: Available<K>, debt: Debt<K>)
    ensures forall k, v ::
              multiset(Values(Take(available, debt).1, k))[v] + Uses(debt, Take(available, debt).0, k, v) ==
              multiset(Values(available, k))[v]
  {
    var values := Values(available, debt.key);
    var index := FirstFit(values, debt.actual);
    if index < |values| {
      WithoutCounts(values, index);
      var left := available[debt.key := Without(values, index)];
      assert forall k :: Values(left, k) == if k == debt.key then Without(values, index) else Values(available, k);
      assert forall k, v ::
        Uses(debt, Some(values[index]), k, v) == if k == debt.key && v == values[index] then 1 else 0;
    }
  }

  /** Changing what one finding takes changes the counts by just that. */
  lemma {:induction false} UsedAfterChange<K(!new)>(debts: seq<Debt<K>>, a: seq<Option<Measure>>, i: nat,
                                                    to: Option<Measure>)
    requires |a| == |debts| && i < |a|
    ensures forall k, v :: Used(debts, a[i := to], k, v) ==
                           Used(debts, a, k, v) - Uses(debts[i], a[i], k, v) + Uses(debts[i], to, k, v)
    ensures forall k :: CoveredOf(debts, a[i := to], k) ==
                        CoveredOf(debts, a, k) - Covers(debts[i], a[i], k) + Covers(debts[i], to, k)
    ensures Covered(a[i := to]) == Covered(a) - (if a[i].Some? then 1 else 0) + if to.Some? then 1 else 0
  {
    if i == 0 {
      assert a[0 := to][1..] == a[1..];
    } else {
      assert a[i := to][1..] == a[1..][i - 1 := to];
      UsedAfterChange(debts[1..], a[1..], i - 1, to);
    }
  }

  /** Some finding takes the value if the value is used for the key. */
  lemma {:induction false} UserOf<K>(debts: seq<Debt<K>>, a: seq<Option<Measure>>, key: K, value: Measure)
    returns (i: nat)
    requires |a| == |debts| && Used(debts, a, key, value) > 0
    ensures i < |a| && a[i] == Some(value) && debts[i].key == key
  {
    if debts[0].key == key && a[0] == Some(value) {
      i := 0;
    } else {
      var j := UserOf(debts[1..], a[1..], key, value);
      i := j + 1;
    }
  }

  /** The first finding's best fit is not above what an assignment gave it. */
  lemma BestFitIsBest<K(!new)>(debts: seq<Debt<K>>, available: Available<K>, a: seq<Option<Measure>>)
    requires debts != [] && Ordered(available) && Valid(debts, available, a) && a[0].Some?
    ensures Take(available, debts[0]).0.Some? && Take(available, debts[0]).0.value <= a[0].value
  {
    assert Used(debts, a, debts[0].key, a[0].value) <= multiset(Values(available, debts[0].key))[a[0].value];
    FirstFitIsLeast(Values(available, debts[0].key), debts[0].actual, a[0].value);
  }

  /** Without the first finding's own share, the others and what it takes fit what is available. */
  lemma OthersFit<K(!new)>(debts: seq<Debt<K>>, available: Available<K>, a: seq<Option<Measure>>, k: K, v: Measure)
    requires debts != [] && Valid(debts, available, a)
    ensures Used(debts[1..], a[1..], k, v) + Uses(debts[0], a[0], k, v) <=
            multiset(Values(Take(available, debts[0]).1, k))[v] + Uses(debts[0], Take(available, debts[0]).0, k, v)
  {
    LeftAfterTake(available, debts[0]);
    assert Used(debts, a, k, v) <= multiset(Values(available, k))[v];
  }

  /** Another finding holds the best fit: it gets what the first finding held instead. */
  lemma ExchangeSwap<K(!new)>(debts: seq<Debt<K>>, available: Available<K>, a: seq<Option<Measure>>, i: nat)
    requires debts != [] && Ordered(available) && Valid(debts, available, a)
    requires Take(available, debts[0]).0.Some? && i < |a| - 1
    requires a[i + 1] == Take(available, debts[0]).0 && debts[i + 1].key == debts[0].key
    ensures Valid(debts[1..], Take(available, debts[0]).1, a[1..][i := a[0]])
  {
    var rest, others, taken := debts[1..], a[1..], Take(available, debts[0]).0;
    var b := others[i := a[0]];
    UsedAfterChange(rest, others, i, a[0]);
    forall k, v
      ensures Used(rest, b, k, v) <= multiset(Values(Take(available, debts[0]).1, k))[v]
    {
      OthersFit(debts, available, a, k, v);
      assert Uses(rest[i], a[0], k, v) == Uses(debts[0], a[0], k, v);
      assert Uses(rest[i], others[i], k, v) == Uses(debts[0], taken, k, v);
    }
    if a[0].Some? {
      BestFitIsBest(debts, available, a);
      assert debts[i + 1].actual <= a[i + 1].value;
    }
  }

  /** The exchange: whatever an assignment does, letting the first finding take its best fit
      costs the others at most one cover, and only for the first finding's key. */
  lemma Exchange<K(!new)>(debts: seq<Debt<K>>, available: Available<K>, a: seq<Option<Measure>>)
    returns (b: seq<Option<Measure>>)
    requires debts != [] && Ordered(available) && Valid(debts, available, a)
    ensures Valid(debts[1..], Take(available, debts[0]).1, b)
    ensures Covered(b) + (if Take(available, debts[0]).0.Some? then 1 else 0) >= Covered(a)
    ensures forall k :: CoveredOf(debts[1..], b, k) + Covers(debts[0], Take(available, debts[0]).0, k) >=
                        CoveredOf(debts, a, k)
  {
    var key, rest, others := debts[0].key, debts[1..], a[1..];
    var (taken, left) := Take(available, debts[0]);
    if a[0].Some? {
      BestFitIsBest(debts, available, a);
    }
    if taken.None? || Used(rest, others, key, taken.value) <= multiset(Values(left, key))[taken.value] {
      b := others;
      forall k, v
        ensures Used(rest, b, k, v) <= multiset(Values(left, k))[v]
      {
        OthersFit(debts, available, a, k, v);
      }
    } else {
      var i := UserOf(rest, others, key, taken.value);
      ExchangeSwap(debts, available, a, i);
      UsedAfterChange(rest, others, i, a[0]);
      b := others[i := a[0]];
    }
  }

  // ---------- the theorems ----------

  /** Every covered finding got its own baseline value, at least as large as itself. */
  lemma {:induction false} GreedyIsValid<K(!new)>(debts: seq<Debt<K>>, available: Available<K>)
    ensures Valid(debts, available, Greedy(debts, available))
  {
    if debts != [] {
      var (taken, left) := Take(available, debts[0]);
      GreedyIsValid(debts[1..], left);
      LeftAfterTake(available, debts[0]);
      var a := Greedy(debts, available);
      assert a[0] == taken && a[1..] == Greedy(debts[1..], left);
      forall k, v
        ensures Used(debts, a, k, v) <= multiset(Values(available, k))[v]
      {
        assert Used(debts[1..], a[1..], k, v) <= multiset(Values(left, k))[v];
      }
    }
  }

  /** No assignment covers more findings, in total or for any one key. */
  lemma {:induction false} GreedyIsOptimal<K(!new)>(debts: seq<Debt<K>>, available: Available<K>,
                                                    a: seq<Option<Measure>>)
    requires Ordered(available) && Valid(debts, available, a)
    ensures Covered(a) <= Covered(Greedy(debts, available))
    ensures forall k :: CoveredOf(debts, a, k) <= CoveredOf(debts, Greedy(debts, available), k)
  {
    if debts != [] {
      var (taken, left) := Take(available, debts[0]);
      var b := Exchange(debts, available, a);
      LeftKeepsOrder(available, debts[0]);
      GreedyIsOptimal(debts[1..], left, b);
      var g := Greedy(debts, available);
      assert g[0] == taken && g[1..] == Greedy(debts[1..], left);
    }
  }

  /** More baseline debt never covers less, in total or for any one key. */
  lemma MoreBaselineCoversMore<K(!new)>(debts: seq<Debt<K>>, fewer: Available<K>, more: Available<K>)
    requires Ordered(more)
    requires forall k :: multiset(Values(fewer, k)) <= multiset(Values(more, k))
    ensures Covered(Greedy(debts, fewer)) <= Covered(Greedy(debts, more))
    ensures forall k :: CoveredOf(debts, Greedy(debts, fewer), k) <= CoveredOf(debts, Greedy(debts, more), k)
  {
    GreedyIsValid(debts, fewer);
    forall k, v
      ensures Used(debts, Greedy(debts, fewer), k, v) <= multiset(Values(more, k))[v]
    {
      assert multiset(Values(fewer, k)) <= multiset(Values(more, k));
    }
    GreedyIsOptimal(debts, more, Greedy(debts, fewer));
  }

  // ---------- order ----------

  function ToFront<T>(s: seq<T>, i: nat): seq<T>
    requires i < |s|
  {
    [s[i]] + (s[..i] + s[i + 1..])
  }

  lemma ToFrontOfTail<T>(s: seq<T>, i: nat)
    requires 0 < i < |s|
    ensures ToFront(s, i)[1..][1..] == ToFront(s[1..], i - 1)[1..]
    ensures ToFront(s, i)[1] == s[0] && ToFront(s, i)[0] == s[i] == s[1..][i - 1]
  {
  }

  /** Moving one finding and what it takes to the front changes no count. */
  lemma {:induction false} MovedToFront<K(!new)>(debts: seq<Debt<K>>, a: seq<Option<Measure>>, i: nat)
    requires |a| == |debts| && i < |debts|
    ensures Covered(ToFront(a, i)) == Covered(a)
    ensures forall k, v :: Used(ToFront(debts, i), ToFront(a, i), k, v) == Used(debts, a, k, v)
    ensures forall k :: CoveredOf(ToFront(debts, i), ToFront(a, i), k) == CoveredOf(debts, a, k)
  {
    if i == 0 {
      assert ToFront(debts, 0) == debts && ToFront(a, 0) == a;
    } else {
      MovedToFront(debts[1..], a[1..], i - 1);
      ToFrontOfTail(debts, i);
      ToFrontOfTail(a, i);
      FrontCounts(debts, a, i);
    }
  }

  lemma FrontCounts<K(!new)>(debts: seq<Debt<K>>, a: seq<Option<Measure>>, i: nat)
    requires |a| == |debts| && 0 < i < |debts|
    requires ToFront(debts, i)[1..][1..] == ToFront(debts[1..], i - 1)[1..]
    requires ToFront(a, i)[1..][1..] == ToFront(a[1..], i - 1)[1..]
    ensures forall k, v :: Used(ToFront(debts, i), ToFront(a, i), k, v) ==
                           Uses(debts[0], a[0], k, v) + Used(ToFront(debts[1..], i - 1), ToFront(a[1..], i - 1), k, v)
    ensures Covered(ToFront(a, i)) == (if a[0].Some? then 1 else 0) + Covered(ToFront(a[1..], i - 1))
    ensures forall k :: CoveredOf(ToFront(debts, i), ToFront(a, i), k) ==
                        Covers(debts[0], a[0], k) + CoveredOf(ToFront(debts[1..], i - 1), ToFront(a[1..], i - 1), k)
  {
  }

  lemma RemainderOfPermutation<T>(s: seq<T>, i: nat, t: seq<T>)
    requires i < |s| && t != [] && s[i] == t[0] && multiset(s) == multiset(t)
    ensures multiset(s[..i] + s[i + 1..]) == multiset(t[1..])
  {
    assert s == s[..i] + [s[i]] + s[i + 1..];
    assert t == [t[0]] + t[1..];
    assert multiset(s[..i] + s[i + 1..]) == multiset(s) - multiset{s[i]};
  }

  /** An assignment for one order of the findings gives one for any other order. */
  lemma {:induction false} ReorderedAssignment<K(!new)>(debts: seq<Debt<K>>, a: seq<Option<Measure>>,
                                                        other: seq<Debt<K>>)
    returns (b: seq<Option<Measure>>)
    requires LargeEnough(debts, a) && multiset(debts) == multiset(other)
    ensures LargeEnough(other, b) && Covered(b) == Covered(a)
    ensures forall k, v :: Used(other, b, k, v) == Used(debts, a, k, v)
    ensures forall k :: CoveredOf(other, b, k) == CoveredOf(debts, a, k)
  {
    if other == [] {
      assert |multiset(debts)| == 0;
      b := [];
    } else {
      assert other == [other[0]] + other[1..];
      assert other[0] in multiset(debts);
      var i :| 0 <= i < |debts| && debts[i] == other[0];
      RemainderOfPermutation(debts, i, other);
      MovedToFront(debts, a, i);
      var d, c := ToFront(debts, i), ToFront(a, i);
      assert d[1..] == debts[..i] + debts[i + 1..] && c[1..] == a[..i] + a[i + 1..];
      var tail := ReorderedAssignment(d[1..], c[1..], other[1..]);
      b := [a[i]] + tail;
      SameTailsSameCounts(d, c, other, b);
    }
  }

  lemma SameTailsSameCounts<K(!new)>(d: seq<Debt<K>>, c: seq<Option<Measure>>, other: seq<Debt<K>>,
                                     b: seq<Option<Measure>>)
    requires d != [] && |c| == |d| && other != [] && |b| == |other| && d[0] == other[0] && c[0] == b[0]
    requires forall k, v :: Used(other[1..], b[1..], k, v) == Used(d[1..], c[1..], k, v)
    requires forall k :: CoveredOf(other[1..], b[1..], k) == CoveredOf(d[1..], c[1..], k)
    ensures forall k, v :: Used(other, b, k, v) == Used(d, c, k, v)
    ensures forall k :: CoveredOf(other, b, k) == CoveredOf(d, c, k)
  {
  }

  /** How many findings are covered, in total and of each key, does not depend on the order they come in. */
  lemma OrderDoesNotMatter<K(!new)>(debts: seq<Debt<K>>, other: seq<Debt<K>>, available: Available<K>)
    requires Ordered(available) && multiset(debts) == multiset(other)
    ensures Covered(Greedy(debts, available)) == Covered(Greedy(other, available))
    ensures forall k :: CoveredOf(debts, Greedy(debts, available), k) == CoveredOf(other, Greedy(other, available), k)
  {
    GreedyIsValid(debts, available);
    GreedyIsValid(other, available);
    var forth := ReorderedAssignment(debts, Greedy(debts, available), other);
    var back := ReorderedAssignment(other, Greedy(other, available), debts);
    GreedyIsOptimal(other, available, forth);
    GreedyIsOptimal(debts, available, back);
  }
}
