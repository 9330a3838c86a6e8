/** Following a path back through rename records, and when that finds its baseline path. */
module RenameLineage {
  import opened PathOrder

  /** Each renamed path and the path it was renamed from. */
  type Lineage = map<Path, Path>

  function Follow(lineage: Lineage, current: Path, visited: set<Path>): Path
    requires visited <= lineage.Keys
    decreases lineage.Keys - visited
  {
    if current in visited || current !in lineage then current
    else Follow(lineage, lineage[current], visited + {current})
  }

  function Canonical(lineage: Lineage, path: Path): Path {
    Follow(lineage, path, {})
  }

  /** The walk stops at a path without a record or at a path it has seen. */
  method CanonicalPath(path: Path, lineage: Lineage) returns (current: Path)
    ensures current == Canonical(lineage, path)
  {
    current := path;
    var visited := {};
    while current !in visited
      invariant visited <= lineage.Keys
      invariant Follow(lineage, current, visited) == Canonical(lineage, path)
      decreases lineage.Keys - visited
    {
      if current !in lineage {
        return;
      }
      visited := visited + {current};
      current := lineage[current];
    }
  }

  /** The path `n` records back; a path without a record stays. */
  function Back(lineage: Lineage, path: Path, n: nat): Path {
    if n == 0 then path
    else var before := Back(lineage, path, n - 1); if before in lineage then lineage[before] else before
  }

  lemma {:induction false} BackFrom(lineage: Lineage, path: Path, m: nat, n: nat)
    ensures Back(lineage, path, m + n) == Back(lineage, Back(lineage, path, m), n)
  {
    if n > 0 {
      BackFrom(lineage, path, m, n - 1);
      assert m + n - 1 == m + (n - 1);
    }
  }

  /** A walk of `n` records through distinct paths outside `avoid`. */
  ghost predicate SimpleWalk(lineage: Lineage, path: Path, n: nat, avoid: set<Path>) {
    && (forall i :: 0 <= i < n ==> Back(lineage, path, i) in lineage && Back(lineage, path, i) !in avoid)
    && forall i, j :: 0 <= i < j < n ==> Back(lineage, path, i) != Back(lineage, path, j)
  }

  /** Where the walk stops: at the end of its records, at an avoided path, or where it was before. */
  ghost predicate StopsAt(lineage: Lineage, path: Path, n: nat, avoid: set<Path>) {
    var last := Back(lineage, path, n);
    || last !in lineage
    || last in avoid
    || exists i :: 0 <= i < n && Back(lineage, path, i) == last
  }

  lemma {:induction false} FollowWalks(lineage: Lineage, current: Path, visited: set<Path>) returns (n: nat)
    requires visited <= lineage.Keys
    ensures Follow(lineage, current, visited) == Back(lineage, current, n)
    ensures SimpleWalk(lineage, current, n, visited) && StopsAt(lineage, current, n, visited)
    decreases lineage.Keys - visited
  {
    if current in visited || current !in lineage {
      n := 0;
    } else {
      var next := lineage[current];
      var m := FollowWalks(lineage, next, visited + {current});
      n := m + 1;
      assert Back(lineage, current, 1) == next by {
        assert Back(lineage, current, 0) == current;
      }
      forall i | 0 <= i <= m
        ensures Back(lineage, current, i + 1) == Back(lineage, next, i)
      {
        BackFrom(lineage, current, 1, i);
      }
      assert Back(lineage, current, n) == Back(lineage, next, m);
      forall i | 0 <= i < n
        ensures Back(lineage, current, i) in lineage && Back(lineage, current, i) !in visited
        ensures i > 0 ==> Back(lineage, current, i) == Back(lineage, next, i - 1)
      {
        if i > 0 {
          assert Back(lineage, current, i - 1 + 1) == Back(lineage, next, i - 1);
        }
      }
      forall i, j | 0 <= i < j < n
        ensures Back(lineage, current, i) != Back(lineage, current, j)
      {
      }
      if Back(lineage, next, m) == current {
        assert Back(lineage, current, 0) == Back(lineage, current, n);
      } else if i :| 0 <= i < m && Back(lineage, next, i) == Back(lineage, next, m) {
        assert Back(lineage, current, i + 1) == Back(lineage, current, n);
      }
    }
  }

  /** The records lead from the path back to itself. */
  ghost predicate OnCycle(lineage: Lineage, path: Path, length: nat) {
    length > 0 && path in lineage && Back(lineage, path, length) == path
  }

  lemma {:induction false} LeavingIsFinal(lineage: Lineage, path: Path, m: nat, n: nat)
    requires m <= n && Back(lineage, path, m) !in lineage
    ensures Back(lineage, path, n) == Back(lineage, path, m)
  {
    if m < n {
      LeavingIsFinal(lineage, path, m, n - 1);
    }
  }

  /** Every path that the cycle passes has a record. */
  lemma CycleHasRecords(lineage: Lineage, path: Path, length: nat, i: nat)
    requires OnCycle(lineage, path, length)
    ensures Back(lineage, path, i) in lineage
  {
    var around := AroundAgain(lineage, path, length, i);
    if Back(lineage, path, i) !in lineage {
      LeavingIsFinal(lineage, path, i, around);
    }
  }

  lemma {:induction false} AroundAgain(lineage: Lineage, path: Path, length: nat, i: nat) returns (around: nat)
    requires OnCycle(lineage, path, length)
    ensures around >= i && Back(lineage, path, around) == path
  {
    if i == 0 {
      around := 0;
    } else {
      var before := AroundAgain(lineage, path, length, i - 1);
      around := before + length;
      BackFrom(lineage, path, before, length);
    }
  }

  /** The canonical path has no record exactly when the walk leaves the records; else it lies on a cycle. */
  lemma CanonicalLeavesOrCycles(lineage: Lineage, path: Path)
    ensures Canonical(lineage, path) !in lineage <==> exists n: nat :: Back(lineage, path, n) !in lineage
    ensures Canonical(lineage, path) in lineage ==>
              exists length: nat :: OnCycle(lineage, Canonical(lineage, path), length)
  {
    var n := FollowWalks(lineage, path, {});
    var last := Canonical(lineage, path);
    if last in lineage {
      var i :| 0 <= i < n && Back(lineage, path, i) == last;
      BackFrom(lineage, path, i, n - i);
      assert OnCycle(lineage, last, n - i);
      forall m: nat
        ensures Back(lineage, path, m) in lineage
      {
        if Back(lineage, path, m) !in lineage {
          if m <= n {
            LeavingIsFinal(lineage, path, m, n);
          } else {
            BackFrom(lineage, path, n, m - n);
            CycleHasRecords(lineage, last, n - i, m - n);
          }
        }
      }
    }
  }

  /** Without cycles the canonical path is one that no record renames. */
  lemma AcyclicEndsOutside(lineage: Lineage, path: Path)
    requires forall p, n: nat :: !OnCycle(lineage, p, n)
    ensures Canonical(lineage, path) !in lineage
  {
    CanonicalLeavesOrCycles(lineage, path);
  }

  // ---------- the baseline path ----------

  /** The path that a finding's file had in the baseline: one record back. */
  function BaselinePath(lineage: Lineage, path: Path): Path {
    if path in lineage then lineage[path] else path
  }

  /** The records lead from `start` back to `start` without passing `avoid`. */
  ghost predicate CycleAvoids(lineage: Lineage, start: Path, avoid: Path) {
    exists n: nat :: OnCycle(lineage, start, n) && forall i :: 0 <= i < n ==> Back(lineage, start, i) != avoid
  }

  lemma {:induction false} CycleAlwaysAvoids(lineage: Lineage, start: Path, avoid: Path, length: nat, i: nat)
    requires OnCycle(lineage, start, length)
    requires forall k :: 0 <= k < length ==> Back(lineage, start, k) != avoid
    ensures Back(lineage, start, i) != avoid
  {
    if i >= length {
      BackFrom(lineage, start, length, i - length);
      CycleAlwaysAvoids(lineage, start, avoid, length, i - length);
    }
  }

  lemma BackAround(lineage: Lineage, start: Path, length: nat, k: nat)
    requires OnCycle(lineage, start, length)
    ensures Back(lineage, start, k + length) == Back(lineage, start, k)
  {
    BackFrom(lineage, start, length, k);
    assert length + k == k + length;
  }

  lemma BackTogether(lineage: Lineage, start: Path, i: nat, n: nat, m: nat)
    requires Back(lineage, start, i) == Back(lineage, start, n)
    ensures Back(lineage, start, i + m) == Back(lineage, start, n + m)
  {
    BackFrom(lineage, start, i, m);
    BackFrom(lineage, start, n, m);
  }

  /** On a cycle a walk that meets itself has its previous step in common too. */
  lemma CycleMeetsEarlier(lineage: Lineage, start: Path, length: nat, i: nat, n: nat)
    requires OnCycle(lineage, start, length) && 0 < i < n
    requires Back(lineage, start, i) == Back(lineage, start, n)
    ensures Back(lineage, start, i - 1) == Back(lineage, start, n - 1)
  {
    BackTogether(lineage, start, i, n, length - 1);
    BackAround(lineage, start, length, i - 1);
    BackAround(lineage, start, length, n - 1);
    assert i + (length - 1) == i - 1 + length && n + (length - 1) == n - 1 + length;
  }

  /** When the canonical path of a renamed file is its baseline path: its old path has no record
      of its own, or it is the path itself, or it lies on a cycle that the path is not on. */
  lemma CanonicalIsBaselineExactly(lineage: Lineage, path: Path)
    ensures Canonical(lineage, path) == BaselinePath(lineage, path) <==>
            var old_ := BaselinePath(lineage, path);
            old_ !in lineage || old_ == path || CycleAvoids(lineage, old_, path)
  {
    if path in lineage {
      var old_ := lineage[path];
      assert {} + {path} == {path};
      assert Canonical(lineage, path) == Follow(lineage, old_, {path});
      var n := FollowWalks(lineage, old_, {path});
      if old_ in lineage && old_ != path {
        if Canonical(lineage, path) == old_ {
          assert n > 0 && Back(lineage, old_, 0) == old_;
          assert OnCycle(lineage, old_, n);
          assert CycleAvoids(lineage, old_, path);
        }
        if CycleAvoids(lineage, old_, path) {
          var length: nat :| OnCycle(lineage, old_, length) &&
                             forall i :: 0 <= i < length ==> Back(lineage, old_, i) != path;
          CycleHasRecords(lineage, old_, length, n);
          CycleAlwaysAvoids(lineage, old_, path, length, n);
          var i :| 0 <= i < n && Back(lineage, old_, i) == Back(lineage, old_, n);
          if i > 0 {
            CycleMeetsEarlier(lineage, old_, length, i, n);
          }
        }
      }
    }
  }

  lemma CyclePassesPath(lineage: Lineage, path: Path, length: nat)
    requires forall p, q :: p in lineage && q in lineage && lineage[p] == lineage[q] ==> p == q
    requires path in lineage && OnCycle(lineage, lineage[path], length)
    ensures Back(lineage, lineage[path], length - 1) == path
  {
  }

  /** Where no two paths come from one, only an old path without a record of its own, or a path
      recorded against itself, is found. */
  lemma CanonicalIsBaselineWithoutJoins(lineage: Lineage, path: Path)
    requires forall p, q :: p in lineage && q in lineage && lineage[p] == lineage[q] ==> p == q
    requires path in lineage
    ensures Canonical(lineage, path) == lineage[path] <==> lineage[path] !in lineage || lineage[path] == path
  {
    CanonicalIsBaselineExactly(lineage, path);
    forall n: nat | OnCycle(lineage, lineage[path], n)
      ensures exists i :: 0 <= i < n && Back(lineage, lineage[path], i) == path
    {
      CyclePassesPath(lineage, path, n);
      assert 0 <= n - 1 < n && Back(lineage, lineage[path], n - 1) == path;
    }
  }

  /** A lineage made by hand may record two renames in a row, `c` from `b` and `b` from `a`.  The path
      before `c` is `b`, but the walk goes on to `a`.  A swap of two names is not followed at all. */
  lemma RenameChainIsOverrun()
    ensures var chain := map[["c"] := ["b"], ["b"] := ["a"]];
            BaselinePath(chain, ["c"]) == ["b"] && Canonical(chain, ["c"]) == ["a"]
    ensures var swap := map[["a"] := ["b"], ["b"] := ["a"]];
            BaselinePath(swap, ["a"]) == ["b"] && Canonical(swap, ["a"]) == ["a"]
  {
    var chain := map[["c"] := ["b"], ["b"] := ["a"]];
    assert ["a"] != ["b"] && ["b"] != ["c"] && ["a"] != ["c"];
    assert Follow(chain, ["a"], {} + {["c"]} + {["b"]}) == ["a"];
    assert Follow(chain, ["b"], {} + {["c"]}) == ["a"];
    var swap := map[["a"] := ["b"], ["b"] := ["a"]];
    assert Follow(swap, ["a"], {} + {["a"]} + {["b"]}) == ["a"];
    assert Follow(swap, ["b"], {} + {["a"]}) == ["a"];
  }

  // ---------- the lineage that the program builds ----------

  /** One record of `git diff --name-status` with renames and copies. */
  datatype DiffRecord = Renamed(before: Path, after: Path) | Copied(before: Path, after: Path) | Other(path: Path)

  /** Renames of inventory files to inventory files; a later record for the same path wins. */
  function LineageOf(records: seq<DiffRecord>, inventory: Path -> bool): Lineage {
    if records == [] then map[]
    else
      var lineage, last := LineageOf(records[..|records| - 1], inventory), records[|records| - 1];
      if last.Renamed? && inventory(last.before) && inventory(last.after) then lineage[last.after := last.before]
      else lineage
  }

  /** Git pairs a path that the base has with one that the base does not have. */
  predicate PairsAgainst(base: set<Path>, records: seq<DiffRecord>) {
    forall i :: 0 <= i < |records| && records[i].Renamed? ==> records[i].before in base && records[i].after !in base
  }

  lemma {:induction false} RecordsAreAgainst(base: set<Path>, records: seq<DiffRecord>, inventory: Path -> bool)
    requires PairsAgainst(base, records)
    ensures var lineage := LineageOf(records, inventory);
            lineage.Keys !! base && lineage.Values <= base
  {
    if records != [] {
      RecordsAreAgainst(base, records[..|records| - 1], inventory);
    }
  }

  /** Where no new path is an old path, the canonical path is the baseline path. */
  lemma DisjointLineageFindsBaseline(lineage: Lineage, path: Path)
    requires lineage.Keys !! lineage.Values
    ensures Canonical(lineage, path) == BaselinePath(lineage, path)
  {
    if path in lineage {
      assert lineage[path] in lineage.Values;
      CanonicalIsBaselineExactly(lineage, path);
    }
  }

  /** So the program, whose lineages come from a diff against the base, always finds the baseline
      path of a file. */
  lemma DiffLineageFindsBaseline(base: set<Path>, records: seq<DiffRecord>, inventory: Path -> bool, path: Path)
    requires PairsAgainst(base, records)
    ensures var lineage := LineageOf(records, inventory);
            && Canonical(lineage, path) == BaselinePath(lineage, path)
            && (path in lineage ==> BaselinePath(lineage, path) in base)
  {
    RecordsAreAgainst(base, records, inventory);
    var lineage := LineageOf(records, inventory);
    DisjointLineageFindsBaseline(lineage, path);
    assert path in lineage ==> lineage[path] in lineage.Values;
  }
}
