/** A project tree: what its paths name, how the file system resolves its symbolic links, and
    which parts of it evidence leaves out. */
module SourceTree {
  import opened Utf8
  import opened Wrappers

  type Path = seq<string>

  /** Where a symbolic link points: to a path below the tree's own root, relative to the link's
      directory, or to an absolute path outside the tree. */
  datatype Target = Inside(path: Path) | Relative(steps: seq<string>) | Outside(path: Path)

  datatype Node = File(content: Text, mode: nat) | Dir | Link(target: Target) | Special

  /** Everything below the root; the root itself is a directory and has the empty path. */
  type Tree = map<Path, Node>

  predicate Name(s: string) {
    s != "" && s != "." && s != ".."
  }

  function Parent(path: Path): Path
    requires path != []
  {
    path[..|path| - 1]
  }

  predicate IsDir(t: Tree, path: Path) {
    path == [] || (path in t && t[path].Dir?)
  }

  /** Every path is a name in a directory of the tree. */
  ghost predicate WellFormed(t: Tree) {
    forall path :: path in t ==> path != [] && Name(path[|path| - 1]) && IsDir(t, Parent(path))
  }

  // ---------- omission ----------

  const OUTPUT_DIRECTORY: Path := [".hardgate", "evidence"]

  predicate OmittedName(name: string, dependencies: bool) {
    name == ".git" || name == "target" || (dependencies && name == "node_modules")
  }

  predicate Omitted(path: Path, dependencies: bool) {
    OUTPUT_DIRECTORY <= path || exists i :: 0 <= i < |path| && OmittedName(path[i], dependencies)
  }

  /** What lies below an omitted path is omitted. */
  lemma OmittedBelow(path: Path, dependencies: bool)
    requires path != [] && Omitted(Parent(path), dependencies)
    ensures Omitted(path, dependencies)
  {
    if !(OUTPUT_DIRECTORY <= Parent(path)) {
      var i :| 0 <= i < |Parent(path)| && OmittedName(Parent(path)[i], dependencies);
      assert OmittedName(path[i], dependencies);
    }
  }

  /** Snapshots leave out everything that copies leave out. */
  lemma SnapshotOmitsMore(path: Path)
    requires Omitted(path, false)
    ensures Omitted(path, true)
  {
    if !(OUTPUT_DIRECTORY <= path) {
      var i :| 0 <= i < |path| && OmittedName(path[i], false);
      assert OmittedName(path[i], true);
    }
  }

  // ---------- resolving links ----------

  /** A place outside the tree: an absolute path, or steps from the directory that holds the root. */
  datatype Elsewhere = Elsewhere(absolute: bool, steps: seq<string>)

  datatype Resolved = Found(path: Path) | Leaves(to: Elsewhere) | Broken

  /** The number of links the file system follows before it gives up. */
  const MAX_LINKS: nat := 40

  /** Follow `rest` from the canonical path `done`. */
  function Walk(t: Tree, done: Path, rest: seq<string>, hops: nat): Resolved
    decreases hops, |rest|
  {
    if rest == [] then Found(done)
    else if rest[0] == "." || rest[0] == "" then Walk(t, done, rest[1..], hops)
    else if rest[0] == ".." then 
      if done == [] then Leaves(Elsewhere(false, rest[1..])) else Walk(t, Parent(done), rest[1..], hops)
    else
      var next := done + [rest[0]];
      if next !in t then Broken
      else match t[next]
        case Dir => Walk(t, next, rest[1..], hops)
        case File(_, _) => if |rest| == 1 then Found(next) else Broken
        case Special => if |rest| == 1 then Found(next) else Broken
        case Link(target) => if hops == 0 then Broken else Follow(t, done, target, rest[1..], hops - 1)
  }

  function Follow(t: Tree, done: Path, target: Target, rest: seq<string>, hops: nat): Resolved
    decreases hops, |rest| + (match target case Inside(p) => |p| case Relative(s) => |s| case Outside(_) => 0) + 1
  {
    match target
    case Outside(path) => Leaves(Elsewhere(true, path + rest))
    case Inside(path) => Walk(t, [], path + rest, hops)
    case Relative(steps) => Walk(t, done, steps + rest, hops)
  }

  /** The canonical path that a path of the tree names. */
  function Resolve(t: Tree, path: Path): Resolved {
    Walk(t, [], path, MAX_LINKS)
  }

  /** The root, or a path that names something other than a link. */
  ghost predicate Canonical(t: Tree, path: Path) {
    path == [] || (path in t && !t[path].Link?)
  }

  lemma {:induction false} WalkFindsCanonical(t: Tree, done: Path, rest: seq<string>, hops: nat)
    requires WellFormed(t) && IsDir(t, done)
    ensures var r := Walk(t, done, rest, hops); r.Found? ==> Canonical(t, r.path)
    decreases hops, |rest|
  {
    if rest != [] {
      var next := done + [rest[0]];
      if rest[0] == "." || rest[0] == "" {
        WalkFindsCanonical(t, done, rest[1..], hops);
      } else if rest[0] == ".." {
        if done != [] {
          WalkFindsCanonical(t, Parent(done), rest[1..], hops);
        }
      } else if next in t && t[next].Dir? {
        WalkFindsCanonical(t, next, rest[1..], hops);
      } else if next in t && t[next].Link? && hops > 0 {
        match t[next].target
        case Outside(_) =>
        case Inside(path) => WalkFindsCanonical(t, [], path + rest[1..], hops - 1);
        case Relative(steps) => WalkFindsCanonical(t, done, steps + rest[1..], hops - 1);
      }
    }
  }

  /** Every directory on the way to a path of the tree. */
  lemma {:induction false} PrefixIsDir(t: Tree, path: Path, k: nat)
    requires WellFormed(t) && path in t && k < |path|
    ensures IsDir(t, path[..k])
    decreases |path|
  {
    if k < |path| - 1 {
      PrefixIsDir(t, Parent(path), k);
      assert Parent(path)[..k] == path[..k];
    }
  }

  lemma NamesAreNormal(t: Tree, path: Path, k: nat)
    requires WellFormed(t) && path in t && k < |path|
    ensures Name(path[k])
  {
    if k < |path| - 1 {
      PrefixIsDir(t, path, k + 1);
      assert path[..k + 1] in t && path[..k + 1][k] == path[k];
    }
  }

  lemma WalkStep(t: Tree, path: Path, k: nat, hops: nat)
    requires WellFormed(t) && path in t && k + 1 < |path|
    ensures Walk(t, path[..k], path[k..], hops) == Walk(t, path[..k + 1], path[k + 1..], hops)
  {
    NamesAreNormal(t, path, k);
    PrefixIsDir(t, path, k + 1);
    assert path[k..][0] == path[k] && path[k..][1..] == path[k + 1..];
    assert path[..k] + [path[k]] == path[..k + 1];
  }

  /** Resolving a path of the tree walks through its directories to its last name. */
  lemma {:induction false} WalkToLast(t: Tree, path: Path, k: nat, hops: nat)
    requires WellFormed(t) && path in t && k < |path|
    ensures Walk(t, path[..k], path[k..], hops) == Walk(t, Parent(path), [path[|path| - 1]], hops)
    decreases |path| - k
  {
    if k + 1 < |path| {
      WalkStep(t, path, k, hops);
      WalkToLast(t, path, k + 1, hops);
    } else {
      assert path[k..] == [path[k]];
    }
  }

  lemma WalkLast(t: Tree, path: Path, hops: nat)
    requires WellFormed(t) && path in t
    ensures Walk(t, [], path, hops) == Walk(t, Parent(path), [path[|path| - 1]], hops)
  {
    WalkToLast(t, path, 0, hops);
    assert path[..0] == [] && path[0..] == path;
  }

  /** A canonical path resolves to itself, however few links may be followed. */
  lemma CanonicalResolves(t: Tree, path: Path, hops: nat)
    requires WellFormed(t) && Canonical(t, path)
    ensures Walk(t, [], path, hops) == Found(path)
  {
    if path != [] {
      WalkLast(t, path, hops);
      var last := [path[|path| - 1]];
      assert Parent(path) + last == path && last[1..] == [];
      assert Walk(t, path, [], hops) == Found(path);
    }
  }

  /** A link to a canonical path below the root resolves to that path. */
  lemma InsideLinkResolves(t: Tree, path: Path, target: Path)
    requires WellFormed(t) && path in t && t[path] == Link(Inside(target)) && Canonical(t, target)
    ensures Resolve(t, path) == Found(target)
  {
    WalkLast(t, path, MAX_LINKS);
    var last := [path[|path| - 1]];
    assert Parent(path) + last == path && last[1..] == [] && target + [] == target;
    CanonicalResolves(t, target, MAX_LINKS - 1);
  }

  /** A link to an absolute path outside leaves the tree for that path. */
  lemma OutsideLinkLeaves(t: Tree, path: Path, target: Path)
    requires WellFormed(t) && path in t && t[path] == Link(Outside(target))
    ensures Resolve(t, path) == Leaves(Elsewhere(true, target))
  {
    WalkLast(t, path, MAX_LINKS);
    var last := [path[|path| - 1]];
    assert Parent(path) + last == path && last[1..] == [] && target + [] == target;
  }

  // ---------- interpreters of virtual environments ----------

  /** What the host says of places outside the tree: their canonical path, whether a virtual
      environment's configuration declares an executable there as the runtime of a name, and bytes. */
  datatype Host = Host(canonical: Elsewhere -> Option<Path>, runtime: (Text, string, Path) -> bool,
                       content: Path -> Text)

  /** Canonical paths are their own canonical paths. */
  ghost predicate Settled(host: Host) {
    forall e :: host.canonical(e).Some? ==>
      host.canonical(Elsewhere(true, host.canonical(e).value)) == host.canonical(e)
  }

  predicate EnvironmentName(path: Path) {
    path != [] &&
    (path[|path| - 1] == ".venv" || path[|path| - 1] == "venv" || (|path| > 1 && path[|path| - 2] == ".tox"))
  }

  predicate PythonName(name: string) {
    "python" <= name && forall i :: 6 <= i < |name| ==> '0' <= name[i] <= '9' || name[i] == '.'
  }

  const MARKER := "pyvenv.cfg"

  function Environment(path: Path): Path
    requires |path| >= 2
  {
    path[..|path| - 2]
  }

  /** The link is the interpreter of a virtual environment whose configuration is a regular file of the
      tree and declares the target. */
  predicate Interpreter(t: Tree, host: Host, path: Path, target: Path) {
    && |path| >= 2 && path[|path| - 2] == "bin" && EnvironmentName(Environment(path)) && PythonName(path[|path| - 1])
    && var marker := Environment(path) + [MARKER];
       marker in t && t[marker].File? && host.runtime(t[marker].content, path[|path| - 1], target)
  }

  datatype Place = Within(path: Path) | Runtime(path: Path)

  /** The place that a link may name: a canonical path of the tree, or a declared interpreter. */
  function PlaceOf(t: Tree, host: Host, path: Path): Option<Place> {
    match Resolve(t, path)
    case Found(target) => Some(Within(target))
    case Broken => None
    case Leaves(to) =>
      var target := host.canonical(to);
      if target.Some? && Interpreter(t, host, path, target.value) then Some(Runtime(target.value)) else None
  }

  lemma OneMoreName(path: Path, name: string, dependencies: bool)
    requires !Omitted(path, dependencies) && !OmittedName(name, dependencies) && name != "evidence"
    ensures !Omitted(path + [name], dependencies)
  {
    var longer := path + [name];
    assert OUTPUT_DIRECTORY[1] == "evidence";
    assert |path| == 1 ==> longer[1] == name;
    assert |path| > 1 ==> longer[0] == path[0] && longer[1] == path[1];
    forall i | 0 <= i < |longer| ensures !OmittedName(longer[i], dependencies) {
      assert i < |path| ==> longer[i] == path[i];
    }
  }

  lemma MarkerIsNoOmittedName(dependencies: bool)
    ensures !OmittedName(MARKER, dependencies) && MARKER != "evidence"
  {
    assert |MARKER| == 10;
  }

  /** With an interpreter link its environment's configuration is kept too. */
  lemma MarkerIsKept(path: Path, dependencies: bool)
    requires |path| >= 2 && !Omitted(path, dependencies)
    ensures !Omitted(Environment(path) + [MARKER], dependencies)
  {
    if Omitted(Parent(path), dependencies) {
      OmittedBelow(path, dependencies);
    }
    if Omitted(Parent(Parent(path)), dependencies) {
      OmittedBelow(Parent(path), dependencies);
    }
    assert Parent(Parent(path)) == Environment(path);
    MarkerIsNoOmittedName(dependencies);
    hide Omitted, OmittedName;
    OneMoreName(Environment(path), MARKER, dependencies);
  }
}
