/** The snapshot of a tree's inputs, and its agreement with the copy: the two walks leave out
    different things, yet a copy has exactly the snapshot of its source. */
module TreeSnapshot {
  import opened SourceTree
  import opened TreeWalk
  import opened TreeCopy
  import opened Utf8
  import opened Wrappers

  /** The digest of a file stands for its bytes. */
  datatype Binding = Digest(content: Text) | Symlink(path: Path) | Executable(path: Path, content: Text)

  type Snapshot = map<Path, Binding>
  /** Which paths are disposable outputs. */
  type Policy = Path -> bool

  // ---------- what a snapshot is ----------

  predicate Included(t: Tree, path: Path) {
    path in t && !Omitted(path, true)
  }

  predicate Bound(t: Tree, policy: Policy, path: Path) {
    Included(t, path) && (t[path].Link? || (t[path].File? && !policy(path)))
  }

  /** Special files, output links, and links out of the included tree are refused; an interpreter is not. */
  predicate Bindable(t: Tree, host: Host, policy: Policy, path: Path)
    requires path in t
  {
    match t[path]
    case Special => false
    case Link(_) =>
      var place := PlaceOf(t, host, path);
      !policy(path) && place.Some? && (place.value.Within? ==> !Omitted(place.value.path, true))
    case _ => true
  }

  function BindingTo(host: Host, place: Place): Binding {
    match place
    case Within(path) => Symlink(path)
    case Runtime(path) => Executable(path, host.content(path))
  }

  function BindingOf(t: Tree, host: Host, path: Path): Binding
    requires path in t
  {
    if t[path].File? then Digest(t[path].content)
    else if PlaceOf(t, host, path).Some? then BindingTo(host, PlaceOf(t, host, path).value)
    else Symlink([])
  }

  ghost predicate AllBindable(t: Tree, host: Host, policy: Policy) {
    forall path :: Included(t, path) ==> Bindable(t, host, policy, path)
  }

  ghost function SnapshotOf(t: Tree, host: Host, policy: Policy): Snapshot {
    map path | path in t && Bound(t, policy, path) :: BindingOf(t, host, path)
  }

  ghost function Captured(t: Tree, host: Host, policy: Policy): Result<Snapshot> {
    if AllBindable(t, host, policy) then Ok(SnapshotOf(t, host, policy)) else Err
  }

  // ---------- the walk ----------

  ghost predicate Binds(t: Tree, host: Host, policy: Policy, files: Snapshot) {
    forall p :: p in files ==> Bound(t, policy, p) && files[p] == BindingOf(t, host, p)
  }

  ghost predicate BoundBelow(t: Tree, host: Host, policy: Policy, visited: seq<Path>, files: Snapshot) {
    Binds(t, host, policy, files) && forall p :: p in files <==> Reached(t, true, visited, p) && Bound(t, policy, p)
  }

  ghost predicate CheckedBelow(t: Tree, host: Host, policy: Policy, visited: seq<Path>) {
    forall p :: Reached(t, true, visited, p) ==> Bindable(t, host, policy, p)
  }

  ghost predicate AddedBindings(t: Tree, policy: Policy, before: Snapshot, entries: seq<Path>, after: Snapshot) {
    forall p :: p in after <==> p in before || (p in entries && Bound(t, policy, p))
  }

  ghost predicate Checked(t: Tree, host: Host, policy: Policy, entries: seq<Path>) {
    forall p :: p in entries && Included(t, p) ==> Bindable(t, host, policy, p)
  }

  ghost predicate IncludedDirectories(t: Tree, entries: seq<Path>, children: seq<Path>) {
    Distinct(children) && forall c :: c in children <==> c in entries && Included(t, c) && t[c].Dir?
  }

  /** The entries of one directory, in any order: files and links are bound, directories wait. */
  method CaptureDirectory(t: Tree, host: Host, policy: Policy, before: Snapshot, entries: seq<Path>)
    returns (r: Result<(Snapshot, seq<Path>)>)
    requires Distinct(entries) && Binds(t, host, policy, before)
    requires forall p :: p in entries ==> p in t
    ensures r.Ok? ==> AddedBindings(t, policy, before, entries, r.value.0) && Binds(t, host, policy, r.value.0)
    ensures r.Ok? ==> Checked(t, host, policy, entries) && IncludedDirectories(t, entries, r.value.1)
    ensures r.Err? ==> !AllBindable(t, host, policy)
  {
    var files, children := before, [];
    for i := 0 to |entries|
      invariant AddedBindings(t, policy, before, entries[..i], files) && Binds(t, host, policy, files)
      invariant Checked(t, host, policy, entries[..i]) && IncludedDirectories(t, entries[..i], children)
    {
      var path := entries[i];
      assert path in entries && entries[..i + 1] == entries[..i] + [path];
      if Omitted(path, true) || (t[path].File? && policy(path)) {
        continue;
      }
      match t[path]
      case Link(_) =>
        var binding := SymlinkBinding(t, host, policy, path);
        if binding.Err? {
          return Err;
        }
        files := files[path := binding.value];
      case Dir =>
        children := children + [path];
      case File(content, _) =>
        files := files[path := Digest(content)];
      case Special =>
        assert Included(t, path) && !Bindable(t, host, policy, path);
        return Err;
    }
    assert entries[..|entries|] == entries;
    return Ok((files, children));
  }

  method SymlinkBinding(t: Tree, host: Host, policy: Policy, path: Path) returns (r: Result<Binding>)
    requires Included(t, path) && t[path].Link?
    ensures r == if Bindable(t, host, policy, path) then Ok(BindingOf(t, host, path)) else Err
  {
    if policy(path) {
      return Err;
    }
    var target := Resolve(t, path);
    match target
    case Broken =>
      return Err;
    case Leaves(to) =>
      var canonical := host.canonical(to);
      if canonical.None? || !Interpreter(t, host, path, canonical.value) {
        return Err;
      }
      return Ok(Executable(canonical.value, host.content(canonical.value)));
    case Found(mapped) =>
      return if Omitted(mapped, true) then Err else Ok(Symlink(mapped));
  }

  lemma BoundOneMore(t: Tree, host: Host, policy: Policy, visited: seq<Path>, d: Path, entries: seq<Path>,
                     before: Snapshot, after: Snapshot)
    requires BoundBelow(t, host, policy, visited, before) && Binds(t, host, policy, after) &&
             AddedBindings(t, policy, before, entries, after)
    requires forall p :: p in entries <==> ChildOf(t, p, d)
    ensures BoundBelow(t, host, policy, visited + [d], after)
  {
  }

  lemma CheckedOneMore(t: Tree, host: Host, policy: Policy, visited: seq<Path>, d: Path, entries: seq<Path>)
    requires CheckedBelow(t, host, policy, visited) && Checked(t, host, policy, entries)
    requires forall p :: p in entries <==> ChildOf(t, p, d)
    ensures CheckedBelow(t, host, policy, visited + [d])
  {
  }

  lemma IncludedIsNewWork(t: Tree, d: Path, entries: seq<Path>, children: seq<Path>)
    requires forall p :: p in entries <==> ChildOf(t, p, d)
    requires IncludedDirectories(t, entries, children)
    ensures NewWork(t, true, d, children)
  {
  }

  lemma SnapshotIsComplete(t: Tree, host: Host, policy: Policy, visited: seq<Path>, files: Snapshot)
    requires WellFormed(t) && VisitsEachOnce(t, true, visited)
    requires BoundBelow(t, host, policy, visited, files) && CheckedBelow(t, host, policy, visited)
    ensures Captured(t, host, policy) == Ok(files)
  {
    forall p ensures Included(t, p) <==> Reached(t, true, visited, p) {
      ReachedIsAll(t, true, visited, p);
    }
    assert files == SnapshotOf(t, host, policy);
  }

  /** The walk over pending directories.  Its result is the snapshot of all that is included, or
      an error exactly when something included is refused; it visits each included directory once. */
  method CaptureWith(t: Tree, host: Host, policy: Policy) returns (r: Result<Snapshot>, ghost visited: seq<Path>)
    requires WellFormed(t)
    ensures r == Captured(t, host, policy)
    ensures r.Ok? ==> VisitsEachOnce(t, true, visited)
  {
    var files: Snapshot, pending := map[], [[]];
    visited := [];
    ghost var unseen := t.Keys + {[]};
    while pending != []
      invariant Progress(t, true, visited, pending)
      invariant BoundBelow(t, host, policy, visited, files) && CheckedBelow(t, host, policy, visited)
      invariant forall d :: d in unseen <==> (d == [] || d in t) && d !in visited
      decreases unseen
    {
      var relative := pending[|pending| - 1];
      ghost var rest := pending[..|pending| - 1];
      assert pending == rest + [relative];
      pending := pending[..|pending| - 1];
      var entries := ReadDirectory(t, relative);
      var captured := CaptureDirectory(t, host, policy, files, entries);
      if captured.Err? {
        return Err, visited;
      }
      IncludedIsNewWork(t, relative, entries, captured.value.1);
      Step(t, true, visited, rest, relative, captured.value.1);
      BoundOneMore(t, host, policy, visited, relative, entries, files, captured.value.0);
      CheckedOneMore(t, host, policy, visited, relative, entries);
      files := captured.value.0;
      pending := pending + captured.value.1;
      assert Wanted(t, true, relative) by { assert relative in rest + [relative]; }
      assert relative in unseen;
      unseen := unseen - {relative};
      visited := visited + [relative];
    }
    WalkIsComplete(t, true, visited);
    SnapshotIsComplete(t, host, policy, visited, files);
    return Ok(files), visited;
  }

  // ---------- the copy has the snapshot of its source ----------

  lemma CopyIsWellFormed(t: Tree, host: Host)
    requires WellFormed(t)
    ensures WellFormed(CopyOf(t, host))
  {
    var copy := CopyOf(t, host);
    forall path | path in copy ensures path != [] && Name(path[|path| - 1]) && IsDir(copy, Parent(path)) {
      if Parent(path) != [] && Omitted(Parent(path), false) {
        OmittedBelow(path, false);
      }
    }
  }

  lemma TargetIsCanonicalInCopy(t: Tree, host: Host, path: Path)
    requires WellFormed(t) && Kept(t, path) && t[path].Link? && Copyable(t, host, path)
    requires PlaceOf(t, host, path).value.Within?
    ensures Canonical(CopyOf(t, host), PlaceOf(t, host, path).value.path)
  {
    WalkFindsCanonical(t, [], path, MAX_LINKS);
    var target := PlaceOf(t, host, path).value.path;
    if target != [] {
      assert Kept(t, target) && target in CopyOf(t, host);
    }
  }

  /** Copying keeps the configuration of a virtual environment, and with it what its interpreter may be. */
  lemma InterpreterInCopy(t: Tree, host: Host, path: Path, target: Path)
    requires Kept(t, path)
    ensures Interpreter(CopyOf(t, host), host, path, target) <==> Interpreter(t, host, path, target)
  {
    if |path| >= 2 {
      MarkerIsKept(path, false);
      var marker := Environment(path) + [MARKER];
      SameFile(t, host, marker);
    }
  }

  lemma SameFile(t: Tree, host: Host, path: Path)
    requires !Omitted(path, false)
    ensures path in t <==> path in CopyOf(t, host)
    ensures path in t && (t[path].File? || CopyOf(t, host)[path].File?) ==> CopyOf(t, host)[path] == t[path]
  {
  }

  /** Every link of a copy names the place that its original names: the same path, now in the copy and
      kept there, or the same interpreter.  No link of a copy leads back to the live source. */
  lemma LinksStayInCopy(t: Tree, host: Host, path: Path)
    requires WellFormed(t) && Settled(host) && AllCopyable(t, host) && Kept(t, path) && t[path].Link?
    ensures PlaceOf(CopyOf(t, host), host, path) == PlaceOf(t, host, path) && PlaceOf(t, host, path).Some?
    ensures PlaceOf(t, host, path).value.Within? ==>
              Resolve(CopyOf(t, host), path) == Found(PlaceOf(t, host, path).value.path) &&
              Canonical(CopyOf(t, host), PlaceOf(t, host, path).value.path)
  {
    assert Copyable(t, host, path);
    CopyIsWellFormed(t, host);
    var copy, place := CopyOf(t, host), PlaceOf(t, host, path).value;
    assert copy[path] == LinkTo(place);
    match place {
      case Within(target) =>
        TargetIsCanonicalInCopy(t, host, path);
        InsideLinkResolves(copy, path, target);
      case Runtime(target) =>
        OutsideLinkLeaves(copy, path, target);
        InterpreterInCopy(t, host, path, target);
    }
  }

  lemma IncludedInCopy(t: Tree, host: Host, path: Path)
    ensures Included(CopyOf(t, host), path) <==> Included(t, path)
    ensures Included(t, path) ==> Kept(t, path) && CopyOf(t, host)[path] == CopiedNode(t, host, path)
  {
    if path in t && !Omitted(path, true) && Omitted(path, false) {
      SnapshotOmitsMore(path);
    }
  }

  lemma SameNodeKind(t: Tree, host: Host, path: Path)
    requires WellFormed(t) && Settled(host) && AllCopyable(t, host) && Included(t, path)
    ensures path in CopyOf(t, host)
    ensures CopyOf(t, host)[path].Link? <==> t[path].Link?
    ensures !t[path].Link? ==> CopyOf(t, host)[path] == t[path]
    ensures t[path].Link? ==> PlaceOf(CopyOf(t, host), host, path) == PlaceOf(t, host, path)
  {
    IncludedInCopy(t, host, path);
    assert Copyable(t, host, path);
    if t[path].Link? {
      LinksStayInCopy(t, host, path);
    }
  }

  lemma SameJudgement(t: Tree, host: Host, policy: Policy, path: Path)
    requires WellFormed(t) && Settled(host) && AllCopyable(t, host) && Included(t, path)
    ensures path in CopyOf(t, host)
    ensures Bindable(CopyOf(t, host), host, policy, path) <==> Bindable(t, host, policy, path)
    ensures Bound(CopyOf(t, host), policy, path) <==> Bound(t, policy, path)
    ensures Bound(t, policy, path) ==> BindingOf(CopyOf(t, host), host, path) == BindingOf(t, host, path)
  {
    IncludedInCopy(t, host, path);
    SameNodeKind(t, host, path);
    hide PlaceOf, CopyOf;
  }

  /** The snapshot of a copy is the snapshot of its source, whatever counts as an output; it is
      even refused exactly when that of the source is. */
  lemma CopyHasSameSnapshot(t: Tree, host: Host, policy: Policy)
    requires WellFormed(t) && Settled(host) && Copied(t, host).Ok?
    ensures Captured(Copied(t, host).value, host, policy) == Captured(t, host, policy)
  {
    var copy := CopyOf(t, host);
    forall path ensures Included(copy, path) <==> Included(t, path) {
      IncludedInCopy(t, host, path);
    }
    forall path | Included(t, path)
      ensures path in copy && (Bindable(copy, host, policy, path) <==> Bindable(t, host, policy, path))
    {
      SameJudgement(t, host, policy, path);
    }
    assert AllBindable(copy, host, policy) <==> AllBindable(t, host, policy);
    SameBindings(t, host, policy);
  }

  lemma SameBindings(t: Tree, host: Host, policy: Policy)
    requires WellFormed(t) && Settled(host) && AllCopyable(t, host)
    ensures SnapshotOf(CopyOf(t, host), host, policy) == SnapshotOf(t, host, policy)
  {
    var ours, theirs := SnapshotOf(CopyOf(t, host), host, policy), SnapshotOf(t, host, policy);
    forall path ensures path in ours <==> path in theirs {
      IncludedInCopy(t, host, path);
      if Included(t, path) {
        SameJudgement(t, host, policy, path);
      }
    }
    forall path | path in theirs ensures ours[path] == theirs[path] {
      SameJudgement(t, host, policy, path);
    }
  }

  /** Copying a copy changes nothing. */
  lemma CopyingTwiceIsCopyingOnce(t: Tree, host: Host)
    requires WellFormed(t) && Settled(host) && Copied(t, host).Ok?
    ensures Copied(Copied(t, host).value, host) == Copied(t, host)
  {
    var copy := CopyOf(t, host);
    forall path | path in copy ensures Copyable(copy, host, path) && CopiedNode(copy, host, path) == copy[path] {
      assert Kept(t, path) && Copyable(t, host, path);
      if t[path].Link? {
        LinksStayInCopy(t, host, path);
      }
    }
    assert CopyOf(copy, host) == copy;
  }
}
