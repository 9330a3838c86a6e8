/** Facts about sequences of states that need no knowledge of the steps. */
module Runs {
  /** A relation that each step has and that composes relates any two states of a run. */
  lemma {:induction false} RelatesAll<S(!new)>(run: seq<S>, relation: (S, S) -> bool, i: nat, n: nat)
    requires i <= n < |run|
    requires forall k :: 0 <= k < |run| - 1 ==> relation(run[k], run[k + 1])
    requires forall s :: relation(s, s)
    requires forall s, t, u :: relation(s, t) && relation(t, u) ==> relation(s, u)
    ensures relation(run[i], run[n])
  {
    if i < n {
      RelatesAll(run, relation, i, n - 1);
      assert relation(run[n - 1], run[n - 1 + 1]);
    }
  }

  /** What does not hold at first and holds later begins to hold at some step. */
  lemma {:induction false} BeginsToHold<S>(run: seq<S>, holds: S -> bool, i: nat, n: nat) returns (m: nat)
    requires i <= n < |run| && !holds(run[i]) && holds(run[n])
    ensures i <= m < n && !holds(run[m]) && holds(run[m + 1])
  {
    if holds(run[n - 1]) {
      m := BeginsToHold(run, holds, i, n - 1);
    } else {
      m := n - 1;
    }
  }

  /** What holds at first and is kept by each step holds always. */
  lemma {:induction false} AlwaysHolds<S>(run: seq<S>, holds: S -> bool, n: nat)
    requires n < |run| && holds(run[0])
    requires forall k :: 0 <= k < |run| - 1 && holds(run[k]) ==> holds(run[k + 1])
    ensures holds(run[n])
  {
    if n > 0 {
      AlwaysHolds(run, holds, n - 1);
      assert holds(run[n - 1 + 1]);
    }
  }

  /** What no step changes is the same at both ends. */
  lemma {:induction false} StaysEqual<S, T>(run: seq<S>, value: S -> T, i: nat, n: nat)
    requires i <= n < |run|
    requires forall k :: i <= k < n ==> value(run[k + 1]) == value(run[k])
    ensures value(run[i]) == value(run[n])
  {
    if i < n {
      StaysEqual(run, value, i, n - 1);
      assert value(run[n - 1 + 1]) == value(run[n - 1]);
    }
  }
}
