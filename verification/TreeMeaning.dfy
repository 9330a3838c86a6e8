/** What a snapshot and a copy tell of a tree: which paths they leave out, that a snapshot fixes the bytes of
    every input, and where links lead. */
module TreeMeaning {
  import opened SourceTree
  import opened TreeCopy
  import opened TreeSnapshot
  import opened Utf8
  import opened Wrappers

  // ---------- what is left out ----------

  ghost predicate LeftOutOfCopy(path: Path) {
    || ".git" in path || "target" in path
    || (|path| >= 2 && path[0] == ".hardgate" && path[1] == "evidence")
  }

  ghost predicate LeftOutOfSnapshot(path: Path) {
    LeftOutOfCopy(path) || "node_modules" in path
  }

  lemma OmissionTells(path: Path)
    ensures Omitted(path, false) <==> LeftOutOfCopy(path)
    ensures Omitted(path, true) <==> LeftOutOfSnapshot(path)
  {
    if name :| name in path && OmittedName(name, true) {
      var i :| 0 <= i < |path| && path[i] == name;
      assert OmittedName(path[i], true);
      assert OmittedName(name, false) ==> OmittedName(path[i], false);
    }
    assert OUTPUT_DIRECTORY <= path <==> |path| >= 2 && path[0] == ".hardgate" && path[1] == "evidence";
    assert ".git" in path ==> OmittedName(".git", false) && OmittedName(".git", true);
    assert "target" in path ==> OmittedName("target", false) && OmittedName("target", true);
    assert "node_modules" in path ==> OmittedName("node_modules", true);
  }

  // ---------- what a snapshot tells ----------

  /** The file belongs to the inputs, and is no declared output. */
  ghost predicate InputFile(t: Tree, policy: Policy, path: Path) {
    path in t && t[path].File? && !LeftOutOfSnapshot(path) && !policy(path)
  }

  ghost predicate InputLink(t: Tree, path: Path) {
    path in t && t[path].Link? && !LeftOutOfSnapshot(path)
  }

  /** The link leads to this place of the tree. */
  ghost predicate LeadsInside(t: Tree, path: Path, target: Path) {
    InputLink(t, path) && Resolve(t, path) == Found(target)
  }

  /** The link leaves the tree for this interpreter. */
  ghost predicate LeadsToInterpreter(t: Tree, host: Host, path: Path, target: Path) {
    InputLink(t, path) && Resolve(t, path).Leaves? && host.canonical(Resolve(t, path).to) == Some(target)
  }

  /** A snapshot holds the inputs and nothing else: each file with its bytes, each link with the place that it
      leads to, which is an input itself, or with its interpreter and the interpreter's bytes. */
  lemma SnapshotTells(t: Tree, host: Host, policy: Policy, s: Snapshot)
    requires Captured(t, host, policy) == Ok(s)
    ensures forall p :: p in s <==> InputFile(t, policy, p) || InputLink(t, p)
    ensures forall p :: InputFile(t, policy, p) ==> s[p] == Digest(t[p].content)
    ensures forall p, target :: LeadsInside(t, p, target) ==> s[p] == Symlink(target) && !LeftOutOfSnapshot(target)
    ensures forall p, target :: LeadsToInterpreter(t, host, p, target) ==>
              s[p] == Executable(target, host.content(target)) && Interpreter(t, host, p, target)
    ensures forall p :: InputLink(t, p) ==>
              !policy(p) && exists target :: LeadsInside(t, p, target) || LeadsToInterpreter(t, host, p, target)
    ensures forall p :: p in t && !LeftOutOfSnapshot(p) ==> !t[p].Special?
  {
    forall p ensures Omitted(p, true) <==> LeftOutOfSnapshot(p) {
      OmissionTells(p);
    }
    forall p | InputLink(t, p)
      ensures !policy(p) && exists target :: LeadsInside(t, p, target) || LeadsToInterpreter(t, host, p, target)
    {
      assert Included(t, p) && Bindable(t, host, policy, p);
      match Resolve(t, p) {
        case Found(target) => assert LeadsInside(t, p, target);
        case Leaves(to) => assert LeadsToInterpreter(t, host, p, host.canonical(to).value);
        case Broken =>
      }
    }
    forall p | p in t && !LeftOutOfSnapshot(p) ensures !t[p].Special? {
      assert Included(t, p) && Bindable(t, host, policy, p);
    }
    forall p, target | LeadsInside(t, p, target) ensures s[p] == Symlink(target) && !LeftOutOfSnapshot(target) {
      assert Included(t, p) && Bindable(t, host, policy, p);
    }
    forall p, target | LeadsToInterpreter(t, host, p, target)
      ensures s[p] == Executable(target, host.content(target)) && Interpreter(t, host, p, target)
    {
      assert Included(t, p) && Bindable(t, host, policy, p);
    }
  }

  /** Trees with one snapshot have the same input files with the same bytes, links to the same places, and
      interpreters at the same places with the same bytes, on whatever hosts they lie. */
  lemma SameSnapshotSameInputs(t: Tree, host: Host, u: Tree, other: Host, policy: Policy)
    requires Captured(t, host, policy).Ok? && Captured(t, host, policy) == Captured(u, other, policy)
    ensures forall p :: InputFile(t, policy, p) <==> InputFile(u, policy, p)
    ensures forall p :: InputFile(t, policy, p) && InputFile(u, policy, p) ==> t[p].content == u[p].content
    ensures forall p, target :: LeadsInside(t, p, target) <==> LeadsInside(u, p, target)
    ensures forall p, target :: LeadsToInterpreter(t, host, p, target) <==> LeadsToInterpreter(u, other, p, target)
    ensures forall p, target :: LeadsToInterpreter(t, host, p, target) ==> host.content(target) == other.content(target)
  {
    var s := Captured(t, host, policy).value;
    SnapshotTells(t, host, policy, s);
    SnapshotTells(u, other, policy, s);
    hide Captured, InputLink, LeadsInside, LeadsToInterpreter, LeftOutOfSnapshot;
    forall p
      ensures InputFile(t, policy, p) <==> InputFile(u, policy, p)
      ensures InputFile(t, policy, p) && InputFile(u, policy, p) ==> t[p].content == u[p].content
    {
      KindsTell(t, host, u, other, policy, s, p);
      KindsTell(u, other, t, host, policy, s, p);
    }
    forall p, target ensures LeadsInside(t, p, target) <==> LeadsInside(u, p, target) {
      InsideTells(t, host, u, other, policy, s, p, target);
      InsideTells(u, other, t, host, policy, s, p, target);
    }
    forall p, target
      ensures LeadsToInterpreter(t, host, p, target) <==> LeadsToInterpreter(u, other, p, target)
      ensures LeadsToInterpreter(t, host, p, target) ==> host.content(target) == other.content(target)
    {
      InterpreterTells(t, host, u, other, policy, s, p, target);
      InterpreterTells(u, other, t, host, policy, s, p, target);
    }
  }

  lemma KindsTell(t: Tree, host: Host, u: Tree, other: Host, policy: Policy, s: Snapshot, p: Path)
    requires Captured(t, host, policy) == Ok(s) && Captured(u, other, policy) == Ok(s)
    ensures InputFile(t, policy, p) ==> InputFile(u, policy, p) && t[p].content == u[p].content
  {
    SnapshotTells(t, host, policy, s);
    SnapshotTells(u, other, policy, s);
    hide Captured, LeftOutOfSnapshot;
    if InputFile(t, policy, p) && InputLink(u, p) {
      var target :| LeadsInside(u, p, target) || LeadsToInterpreter(u, other, p, target);
    }
  }

  lemma InsideTells(t: Tree, host: Host, u: Tree, other: Host, policy: Policy, s: Snapshot, p: Path, target: Path)
    requires Captured(t, host, policy) == Ok(s) && Captured(u, other, policy) == Ok(s)
    ensures LeadsInside(t, p, target) ==> LeadsInside(u, p, target)
  {
    SnapshotTells(t, host, policy, s);
    SnapshotTells(u, other, policy, s);
    hide Captured, LeftOutOfSnapshot;
    if LeadsInside(t, p, target) {
      assert p in s && s[p] == Symlink(target) && !InputFile(u, policy, p);
      var there :| LeadsInside(u, p, there) || LeadsToInterpreter(u, other, p, there);
    }
  }

  lemma InterpreterTells(t: Tree, host: Host, u: Tree, other: Host, policy: Policy, s: Snapshot, p: Path, target: Path)
    requires Captured(t, host, policy) == Ok(s) && Captured(u, other, policy) == Ok(s)
    ensures LeadsToInterpreter(t, host, p, target) ==>
              LeadsToInterpreter(u, other, p, target) && host.content(target) == other.content(target)
  {
    SnapshotTells(t, host, policy, s);
    SnapshotTells(u, other, policy, s);
    hide Captured, LeftOutOfSnapshot;
    if LeadsToInterpreter(t, host, p, target) {
      assert p in s && s[p] == Executable(target, host.content(target)) && !InputFile(u, policy, p);
      var there :| LeadsInside(u, p, there) || LeadsToInterpreter(u, other, p, there);
    }
  }

  /** Every edit of an input file changes the snapshot or makes it fail: it is never missed. */
  lemma EditsAreSeen(t: Tree, host: Host, other: Host, policy: Policy, p: Path, content: Text, mode: nat)
    requires Captured(t, host, policy).Ok? && InputFile(t, policy, p) && content != t[p].content
    ensures Captured(t[p := File(content, mode)], other, policy) != Captured(t, host, policy)
  {
    var u := t[p := File(content, mode)];
    assert InputFile(u, policy, p);
    if Captured(u, other, policy) == Captured(t, host, policy) {
      SameSnapshotSameInputs(t, host, u, other, policy);
    }
  }

  /** So is every input file that is added or removed. */
  lemma AdditionsAreSeen(t: Tree, host: Host, other: Host, policy: Policy, p: Path)
    requires InputFile(t, policy, p)
    ensures Captured(t, host, policy).Ok? ==> Captured(t - {p}, other, policy) != Captured(t, host, policy)
  {
    var u := t - {p};
    assert !InputFile(u, policy, p);
    if Captured(t, host, policy).Ok? && Captured(u, other, policy) == Captured(t, host, policy) {
      SameSnapshotSameInputs(t, host, u, other, policy);
    }
  }

  // ---------- what a copy holds ----------

  ghost predicate CopiesLink(t: Tree, host: Host, path: Path, copied: Node) {
    var place := Resolve(t, path);
    || (place.Found? && copied == Link(Inside(place.path)) && !LeftOutOfCopy(place.path))
    || (place.Leaves? && host.canonical(place.to).Some? && copied == Link(Outside(host.canonical(place.to).value)) &&
        Interpreter(t, host, path, host.canonical(place.to).value))
  }

  /** A copy has just the paths that are not left out: files with their bytes and modes, directories, and links
      to the places that the originals lead to, now in the copy, or to the same interpreters. */
  lemma CopyTells(t: Tree, host: Host, copy: Tree)
    requires Copied(t, host) == Ok(copy)
    ensures forall p :: p in copy <==> p in t && !LeftOutOfCopy(p)
    ensures forall p :: p in copy && !t[p].Link? ==> copy[p] == t[p] && !t[p].Special?
    ensures forall p :: p in copy && t[p].Link? ==> CopiesLink(t, host, p, copy[p])
  {
    forall p ensures Omitted(p, false) <==> LeftOutOfCopy(p) {
      OmissionTells(p);
    }
    forall p | p in copy ensures Copyable(t, host, p) {
      assert Kept(t, p);
    }
  }

  // ---------- where links lead ----------

  lemma {:induction false} NamesLeadDown(t: Tree, done: Path, names: seq<string>, hops: nat)
    requires WellFormed(t) && Canonical(t, done + names) && forall i :: 0 <= i < |names| ==> Name(names[i])
    ensures Walk(t, done, names, hops) == Found(done + names)
    decreases |names|
  {
    if names == [] {
      assert done + names == done;
    } else {
      var path, next := done + names, done + [names[0]];
      assert next + names[1..] == path;
      if |names| > 1 {
        PrefixIsDir(t, path, |done| + 1);
        assert path[..|done| + 1] == next;
      }
      NamesLeadDown(t, next, names[1..], hops);
    }
  }

  function Ups(n: nat): seq<string> {
    if n == 0 then [] else [".."] + Ups(n - 1)
  }

  lemma {:induction false} UpsLeadUp(t: Tree, done: Path, ups: nat, names: seq<string>, hops: nat)
    requires ups <= |done|
    ensures Walk(t, done, Ups(ups) + names, hops) == Walk(t, done[..|done| - ups], names, hops)
    decreases ups
  {
    if ups == 0 {
      assert Ups(0) + names == names && done[..|done|] == done;
    } else {
      var rest := Ups(ups) + names;
      assert rest[0] == ".." && rest[1..] == Ups(ups - 1) + names;
      UpsLeadUp(t, Parent(done), ups - 1, names, hops);
      assert Parent(done)[..|Parent(done)| - (ups - 1)] == done[..|done| - ups];
    }
  }

  lemma RelativeLinkFollowed(t: Tree, path: Path, steps: seq<string>)
    requires WellFormed(t) && path in t && t[path] == Link(Relative(steps))
    ensures Resolve(t, path) == Walk(t, Parent(path), steps, MAX_LINKS - 1)
  {
    hide Walk, Follow;
    WalkLast(t, path, MAX_LINKS);
    var directory, name := Parent(path), path[|path| - 1];
    assert directory + [name] == path;
    LastLinkFollowed(t, directory, name, steps, MAX_LINKS);
  }

  lemma LastLinkFollowed(t: Tree, directory: Path, name: string, steps: seq<string>, hops: nat)
    requires Name(name) && directory + [name] in t && t[directory + [name]] == Link(Relative(steps)) && hops > 0
    ensures Walk(t, directory, [name], hops) == Walk(t, directory, steps, hops - 1)
  {
    assert [name][1..] == [] && steps + [] == steps;
  }

  /** A relative link leads from the directory that it lies in: up by its parent steps, then down by its names. */
  lemma RelativeLinkLeads(t: Tree, path: Path, ups: nat, names: seq<string>)
    requires WellFormed(t) && path in t && t[path] == Link(Relative(Ups(ups) + names))
    requires ups < |path| && forall i :: 0 <= i < |names| ==> Name(names[i])
    requires Canonical(t, path[..|path| - 1 - ups] + names)
    ensures Resolve(t, path) == Found(path[..|path| - 1 - ups] + names)
  {
    var directory := Parent(path);
    RelativeLinkFollowed(t, path, Ups(ups) + names);
    UpsLeadUp(t, directory, ups, names, MAX_LINKS - 1);
    assert directory[..|directory| - ups] == path[..|path| - 1 - ups];
    NamesLeadDown(t, path[..|path| - 1 - ups], names, MAX_LINKS - 1);
  }

  /** A path through a linked directory leads to what the directory holds. */
  lemma LinkedDirectoryLeads(t: Tree, done: Path, name: string, names: seq<string>, target: Path, hops: nat)
    requires WellFormed(t) && Name(name) && done + [name] in t && t[done + [name]] == Link(Inside(target)) && hops > 0
    requires Canonical(t, target + names) && forall i :: 0 <= i < |names| ==> Name(names[i])
    requires forall i :: 0 <= i < |target| ==> Name(target[i])
    ensures Walk(t, done, [name] + names, hops) == Found(target + names)
  {
    hide Name, WellFormed, Canonical, Walk, Follow;
    InsideLinkFollowed(t, done, name, names, target, hops);
    AllNames(target, names);
    NamesLeadFromRoot(t, target + names, hops - 1);
  }

  lemma NamesLeadFromRoot(t: Tree, names: seq<string>, hops: nat)
    requires WellFormed(t) && Canonical(t, names) && forall i :: 0 <= i < |names| ==> Name(names[i])
    ensures Walk(t, [], names, hops) == Found(names)
  {
    hide Name, WellFormed, Canonical, Walk, Follow;
    assert [] + names == names;
    NamesLeadDown(t, [], names, hops);
  }

  lemma AllNames(a: seq<string>, b: seq<string>)
    requires forall i :: 0 <= i < |a| ==> Name(a[i])
    requires forall i :: 0 <= i < |b| ==> Name(b[i])
    ensures forall i :: 0 <= i < |a + b| ==> Name((a + b)[i])
  {
    hide Name;
  }

  lemma InsideLinkFollowed(t: Tree, done: Path, name: string, names: seq<string>, target: Path, hops: nat)
    requires Name(name) && done + [name] in t && t[done + [name]] == Link(Inside(target)) && hops > 0
    ensures Walk(t, done, [name] + names, hops) == Walk(t, [], target + names, hops - 1)
  {
    var rest := [name] + names;
    assert rest[0] == name && rest[1..] == names;
  }

  /** A relative link with more parent steps than it has directories above it leaves the tree. */
  lemma UpwardLinkLeaves(t: Tree, path: Path, names: seq<string>)
    requires WellFormed(t) && path in t && t[path] == Link(Relative(Ups(|path|) + names))
    ensures Resolve(t, path) == Leaves(Elsewhere(false, names))
  {
    var directory := Parent(path);
    RelativeLinkFollowed(t, path, Ups(|path|) + names);
    UpsSplit(|directory|, names);
    UpsLeadUp(t, directory, |directory|, [".."] + names, MAX_LINKS - 1);
    assert directory[..|directory| - |directory|] == [];
    LeavesTheRoot(t, names, MAX_LINKS - 1);
  }

  lemma LeavesTheRoot(t: Tree, names: seq<string>, hops: nat)
    ensures Walk(t, [], [".."] + names, hops) == Leaves(Elsewhere(false, names))
  {
    assert ([".."] + names)[1..] == names;
  }

  lemma {:induction false} UpsSplit(n: nat, names: seq<string>)
    ensures Ups(n + 1) + names == Ups(n) + ([".."] + names)
  {
    assert Ups(n + 1) == [".."] + Ups(n);
    if n == 0 {
      assert Ups(0) == [];
    } else {
      UpsSplit(n - 1, names);
      assert Ups(n) == [".."] + Ups(n - 1);
      assert Ups(n + 1) + names == [".."] + (Ups(n) + names);
      assert Ups(n) + ([".."] + names) == [".."] + (Ups(n - 1) + ([".."] + names));
    }
  }

  /** A chain of links in the root, each to the next one by name. */
  ghost predicate Chained(t: Tree, names: seq<string>) {
    && names != [] && (forall i :: 0 <= i < |names| ==> Name(names[i]) && [names[i]] in t)
    && (forall i :: 0 <= i < |names| - 1 ==> t[[names[i]]] == Link(Relative([names[i + 1]])))
    && t[[names[|names| - 1]]].File?
  }

  lemma {:induction false} ChainLeads(t: Tree, names: seq<string>, hops: nat)
    requires Chained(t, names)
    ensures Walk(t, [], [names[0]], hops) == if |names| - 1 <= hops then Found([names[|names| - 1]]) else Broken
    decreases |names|
  {
    assert [] + [names[0]] == [names[0]] && [names[0]][1..] == [];
    if |names| > 1 {
      assert t[[names[0]]] == Link(Relative([names[1]]));
      if hops > 0 {
        assert Chained(t, names[1..]);
        assert [names[1]] + [] == [names[1]];
        ChainLeads(t, names[1..], hops - 1);
      }
    }
  }

  /** A chain of links leads to its end exactly when it has no more than forty. */
  lemma FortyLinksAreFollowed(t: Tree, names: seq<string>)
    requires Chained(t, names)
    ensures Resolve(t, [names[0]]) == if |names| - 1 <= 40 then Found([names[|names| - 1]]) else Broken
  {
    ChainLeads(t, names, 40);
  }

  predicate InVersion(c: char) {
    c in {'0', '1', '2', '3', '4', '5', '6', '7', '8', '9', '.'}
  }

  /** The name python, with a version or without. */
  ghost predicate NamesPython(name: string) {
    exists version: string :: name == "python" + version && forall i :: 0 <= i < |version| ==> InVersion(version[i])
  }

  /** A directory that environments are made in: `.venv`, `venv`, or one inside `.tox`. */
  ghost predicate HoldsEnvironment(directory: Path) {
    || (exists above: Path :: directory == above + [".venv"])
    || (exists above: Path :: directory == above + ["venv"])
    || (exists above: Path, name: string :: directory == above + [".tox", name])
  }

  lemma EnvironmentTells(directory: Path)
    ensures EnvironmentName(directory) <==> HoldsEnvironment(directory)
  {
    var n := |directory|;
    if EnvironmentName(directory) {
      if directory[n - 1] == ".venv" {
        assert directory == directory[..n - 1] + [".venv"];
      } else if directory[n - 1] == "venv" {
        assert directory == directory[..n - 1] + ["venv"];
      } else {
        assert directory == directory[..n - 2] + [".tox", directory[n - 1]];
      }
    }
  }

  lemma InVersionTells(c: char)
    ensures InVersion(c) <==> '0' <= c <= '9' || c == '.'
  {
  }

  lemma PythonTells(name: string)
    ensures PythonName(name) <==> NamesPython(name)
  {
    forall c: char ensures InVersion(c) <==> '0' <= c <= '9' || c == '.' {
      InVersionTells(c);
    }
    hide InVersion;
    if PythonName(name) {
      var version := name[6..];
      assert name == "python" + version;
      forall i | 0 <= i < |version| ensures InVersion(version[i]) {
        assert version[i] == name[i + 6];
      }
    }
    if NamesPython(name) {
      var version: string :| name == "python" + version && forall i :: 0 <= i < |version| ==> InVersion(version[i]);
      forall i | 6 <= i < |name| ensures '0' <= name[i] <= '9' || name[i] == '.' {
        assert name[i] == version[i - 6];
      }
    }
  }

  /** An interpreter is `bin/python` of an environment, with or without a version, whose `pyvenv.cfg` is a file of
      the tree and declares what the link leads to. */
  lemma InterpretersTell(t: Tree, host: Host, directory: Path, name: string, target: Path)
    ensures Interpreter(t, host, directory + ["bin", name], target) <==>
            && HoldsEnvironment(directory) && NamesPython(name)
            && directory + ["pyvenv.cfg"] in t && t[directory + ["pyvenv.cfg"]].File?
            && host.runtime(t[directory + ["pyvenv.cfg"]].content, name, target)
  {
    EnvironmentTells(directory);
    PythonTells(name);
    hide EnvironmentName, PythonName, HoldsEnvironment, NamesPython;
    assert (directory + ["bin", name])[..|directory|] == directory;
  }

  /** Nothing else is one. */
  lemma InterpretersAreInBin(t: Tree, host: Host, path: Path, target: Path)
    requires Interpreter(t, host, path, target)
    ensures exists directory: Path, name: string :: path == directory + ["bin", name]
  {
    assert path == path[..|path| - 2] + ["bin", path[|path| - 1]];
  }
}
