/** The order-free core of both tree walks: a worklist of directories reaches each wanted
    directory exactly once. */
module TreeWalk {
  import opened SourceTree

  ghost predicate ChildOf(t: Tree, path: Path, directory: Path) {
    path in t && path != [] && Parent(path) == directory
  }

  ghost predicate Distinct(paths: seq<Path>) {
    forall i, j :: 0 <= i < j < |paths| ==> paths[i] != paths[j]
  }

  /** The directories that a walk descends into; it may omit dependencies as well. */
  ghost predicate Wanted(t: Tree, dependencies: bool, d: Path) {
    d == [] || (d in t && t[d].Dir? && !Omitted(d, dependencies))
  }

  /** The wanted directories known so far are the root and those whose parent was visited. */
  ghost predicate Known(t: Tree, dependencies: bool, visited: seq<Path>, pending: seq<Path>) {
    && (forall d :: d in visited || d in pending ==> Wanted(t, dependencies, d))
    && ([] in visited || [] in pending)
    && (forall d :: Wanted(t, dependencies, d) && d != [] ==> (d in visited || d in pending <==> Parent(d) in visited))
  }

  ghost predicate Progress(t: Tree, dependencies: bool, visited: seq<Path>, pending: seq<Path>) {
    Distinct(visited + pending) && Known(t, dependencies, visited, pending)
  }

  ghost predicate NewWork(t: Tree, dependencies: bool, d: Path, children: seq<Path>) {
    Distinct(children) && forall c :: c in children <==> ChildOf(t, c, d) && Wanted(t, dependencies, c)
  }

  /** Any order of the entries of a directory. */
  method ReadDirectory(t: Tree, d: Path) returns (entries: seq<Path>)
    ensures Distinct(entries)
    ensures forall p :: p in entries <==> ChildOf(t, p, d)
  {
    var left := set p | p in t && p != [] && Parent(p) == d;
    entries := [];
    while left != {}
      invariant Distinct(entries)
      invariant forall p :: p in left || p in entries <==> ChildOf(t, p, d)
      invariant forall p :: p in left ==> p !in entries
      decreases left
    {
      var p :| p in left;
      left := left - {p};
      entries := entries + [p];
    }
  }

  lemma NewWorkIsNew(t: Tree, dependencies: bool, visited: seq<Path>, pending: seq<Path>, d: Path, c: Path)
    requires Distinct(visited + (pending + [d])) && Known(t, dependencies, visited, pending + [d])
    requires ChildOf(t, c, d) && Wanted(t, dependencies, c)
    ensures c !in visited && c !in pending + [d]
  {
    assert d !in visited by {
      var all := visited + (pending + [d]);
      assert all[|all| - 1] == d;
      forall i | 0 <= i < |visited| ensures visited[i] != d {
        assert all[i] == visited[i];
      }
    }
  }

  lemma DistinctParts(a: seq<Path>, b: seq<Path>)
    requires Distinct(a + b)
    ensures Distinct(a) && Distinct(b) && forall p :: p in a ==> p !in b
  {
    var s := a + b;
    forall i, j | 0 <= i < j < |a| ensures a[i] != a[j] { assert s[i] != s[j]; }
    forall i, j | 0 <= i < j < |b| ensures b[i] != b[j] { assert s[|a| + i] != s[|a| + j]; }
    forall p | p in a ensures p !in b {
      var i :| 0 <= i < |a| && a[i] == p;
      forall j | 0 <= j < |b| ensures b[j] != p { assert s[i] != s[|a| + j]; }
    }
  }

  lemma DistinctWhole(a: seq<Path>, b: seq<Path>)
    requires Distinct(a) && Distinct(b) && forall p :: p in a ==> p !in b
    ensures Distinct(a + b)
  {
    var s := a + b;
    forall i, j | 0 <= i < j < |s| ensures s[i] != s[j] {
      if i < |a| && j >= |a| {
        assert s[i] in a && s[j] == b[j - |a|];
      }
    }
  }

  lemma StepStaysDistinct(t: Tree, dependencies: bool, visited: seq<Path>, pending: seq<Path>, d: Path,
                          children: seq<Path>)
    requires Progress(t, dependencies, visited, pending + [d]) && NewWork(t, dependencies, d, children)
    ensures Distinct((visited + [d]) + (pending + children))
  {
    DistinctParts(visited, pending + [d]);
    DistinctParts(pending, [d]);
    forall c | c in children ensures c !in visited && c !in pending && c != d {
      NewWorkIsNew(t, dependencies, visited, pending, d, c);
      assert d in pending + [d];
      assert c in pending ==> c in pending + [d];
    }
    assert d in pending + [d];
    assert forall p :: p in pending ==> p in pending + [d];
    DistinctWhole(visited, [d]);
    DistinctWhole(pending, children);
    DistinctWhole(visited + [d], pending + children);
  }

  lemma StepStaysKnown(t: Tree, dependencies: bool, visited: seq<Path>, pending: seq<Path>, d: Path,
                       children: seq<Path>)
    requires Known(t, dependencies, visited, pending + [d]) && NewWork(t, dependencies, d, children)
    ensures Known(t, dependencies, visited + [d], pending + children)
  {
  }

  /** Visiting a directory and adding its wanted subdirectories is progress. */
  lemma Step(t: Tree, dependencies: bool, visited: seq<Path>, pending: seq<Path>, d: Path, children: seq<Path>)
    requires Progress(t, dependencies, visited, pending + [d]) && NewWork(t, dependencies, d, children)
    ensures Progress(t, dependencies, visited + [d], pending + children)
    ensures d !in visited
  {
    StepStaysDistinct(t, dependencies, visited, pending, d, children);
    StepStaysKnown(t, dependencies, visited, pending, d, children);
    DistinctParts(visited, pending + [d]);
    assert d in pending + [d];
  }

  /** When no work is left each wanted directory was visited. */
  lemma {:induction false} AllVisited(t: Tree, dependencies: bool, visited: seq<Path>, d: Path)
    requires WellFormed(t) && Progress(t, dependencies, visited, []) && Wanted(t, dependencies, d)
    ensures d in visited
    decreases |d|
  {
    if d != [] {
      if Omitted(Parent(d), dependencies) {
        OmittedBelow(d, dependencies);
      }
      AllVisited(t, dependencies, visited, Parent(d));
    }
  }

  /** Each wanted directory exactly once, and no other. */
  ghost predicate VisitsEachOnce(t: Tree, dependencies: bool, visited: seq<Path>) {
    Distinct(visited) && forall d :: d in visited <==> Wanted(t, dependencies, d)
  }

  lemma WalkIsComplete(t: Tree, dependencies: bool, visited: seq<Path>)
    requires WellFormed(t) && Progress(t, dependencies, visited, [])
    ensures VisitsEachOnce(t, dependencies, visited)
  {
    assert visited + [] == visited;
    forall d | Wanted(t, dependencies, d) ensures d in visited {
      AllVisited(t, dependencies, visited, d);
    }
  }

  /** The entries a walk has dealt with are the kept entries of the visited directories. */
  ghost predicate Reached(t: Tree, dependencies: bool, visited: seq<Path>, path: Path) {
    path in t && path != [] && !Omitted(path, dependencies) && Parent(path) in visited
  }

  lemma ReachedIsAll(t: Tree, dependencies: bool, visited: seq<Path>, path: Path)
    requires WellFormed(t) && VisitsEachOnce(t, dependencies, visited)
    ensures Reached(t, dependencies, visited, path) <==> path in t && !Omitted(path, dependencies)
  {
  }
}
