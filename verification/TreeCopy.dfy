/** Copying a project tree for isolated evidence. */
module TreeCopy {
  import opened Utf8
  import opened SourceTree
  import opened TreeWalk
  import opened Wrappers

  const COPY_BUFFER_SIZE: nat := 65536

  // ---------- files ----------

  /** Read and write through a buffer; a read may return fewer bytes than the buffer holds. */
  method CopyFile(input: Text) returns (output: Text)
    ensures output == input
  {
    var buffer := new Byte[COPY_BUFFER_SIZE];
    var at: nat := 0;
    output := [];
    while at < |input|
      invariant at <= |input| && output == input[..at]
    {
      var read: nat :| 1 <= read <= COPY_BUFFER_SIZE && at + read <= |input|;
      forall i | 0 <= i < read {
        buffer[i] := input[at + i];
      }
      assert buffer[..read] == input[at..at + read];
      output := output + buffer[..read];
      at := at + read;
    }
  }

  /** Compare in chunks, counting down from the size known before. */
  method FilesMatch(origin: Text, copied: Text, expected: nat) returns (same: bool)
    ensures same <==> |origin| == expected && origin == copied
  {
    if |origin| != expected || |copied| != expected {
      return false;
    }
    var remaining := expected;
    while remaining > 0
      invariant 0 <= remaining <= expected
      invariant origin[..expected - remaining] == copied[..expected - remaining]
    {
      var at := expected - remaining;
      var chunk := if remaining < COPY_BUFFER_SIZE then remaining else COPY_BUFFER_SIZE;
      if origin[at..at + chunk] != copied[at..at + chunk] {
        return false;
      }
      assert origin[..at + chunk] == origin[..at] + origin[at..at + chunk];
      assert copied[..at + chunk] == copied[..at] + copied[at..at + chunk];
      remaining := remaining - chunk;
    }
    assert origin[..expected] == origin && copied[..expected] == copied;
    return true;
  }

  // ---------- what a copy is ----------

  predicate Kept(t: Tree, path: Path) {
    path in t && !Omitted(path, false)
  }

  /** Special files, broken links and links out of the kept tree cannot be copied; an interpreter can. */
  predicate Copyable(t: Tree, host: Host, path: Path)
    requires path in t
  {
    match t[path]
    case Special => false
    case Link(_) =>
      var place := PlaceOf(t, host, path);
      place.Some? && (place.value.Within? ==> !Omitted(place.value.path, false))
    case _ => true
  }

  function LinkTo(place: Place): Node {
    match place
    case Within(path) => Link(Inside(path))
    case Runtime(path) => Link(Outside(path))
  }

  /** Links are redirected to the canonical place in the copy, or to the interpreter itself; everything
      else is the same. */
  function CopiedNode(t: Tree, host: Host, path: Path): Node
    requires path in t
  {
    if t[path].Link? && PlaceOf(t, host, path).Some? then LinkTo(PlaceOf(t, host, path).value) else t[path]
  }

  ghost function CopyOf(t: Tree, host: Host): Tree {
    map path | path in t && Kept(t, path) :: CopiedNode(t, host, path)
  }

  ghost predicate AllCopyable(t: Tree, host: Host) {
    forall path :: Kept(t, path) ==> Copyable(t, host, path)
  }

  ghost function Copied(t: Tree, host: Host): Result<Tree> {
    if AllCopyable(t, host) then Ok(CopyOf(t, host)) else Err
  }

  // ---------- the walk ----------

  /** One entry; a directory or link that exists already is an error of the file system. */
  method CopyEntry(source: Tree, host: Host, destination: Tree, path: Path) returns (r: Result<Tree>)
    requires path in source
    ensures r.Ok? <==> Copyable(source, host, path) && (path in destination ==> source[path].File?)
    ensures r.Ok? ==> r.value == destination[path := CopiedNode(source, host, path)]
  {
    match source[path]
    case Link(_) =>
      var link := CopyLink(source, host, path);
      if link.None? || path in destination {
        return Err;
      }
      return Ok(destination[path := link.value]);
    case Dir =>
      if path in destination {
        return Err;
      }
      return Ok(destination[path := Dir]);
    case File(content, mode) =>
      var output := CopyFile(content);
      var same := FilesMatch(content, output, |content|);
      if !same {
        return Err;
      }
      return Ok(destination[path := File(output, mode)]);
    case Special =>
      return Err;
  }

  /** The link that the copy gets: first an interpreter outside the tree, then a place inside. */
  method CopyLink(source: Tree, host: Host, path: Path) returns (link: Option<Node>)
    requires path in source && source[path].Link?
    ensures link == if Copyable(source, host, path) then Some(CopiedNode(source, host, path)) else None
  {
    var target := Resolve(source, path);
    match target
    case Broken =>
      return None;
    case Leaves(to) =>
      var canonical := host.canonical(to);
      if canonical.None? || !Interpreter(source, host, path, canonical.value) {
        return None;
      }
      return Some(Link(Outside(canonical.value)));
    case Found(mapped) =>
      return if Omitted(mapped, false) then None else Some(Link(Inside(mapped)));
  }

  /** The copy so far: the kept ones among `entries` were added to `before`. */
  ghost predicate Added(t: Tree, before: Tree, entries: seq<Path>, after: Tree) {
    forall p :: p in after <==> p in before || (p in entries && Kept(t, p))
  }

  ghost predicate Faithful(t: Tree, host: Host, copy: Tree) {
    forall p :: p in copy ==> Kept(t, p) && Copyable(t, host, p) && copy[p] == CopiedNode(t, host, p)
  }

  ghost predicate DirectoriesAmong(t: Tree, entries: seq<Path>, children: seq<Path>) {
    Distinct(children) && forall c :: c in children <==> c in entries && Kept(t, c) && t[c].Dir?
  }

  method CopyDirectory(source: Tree, host: Host, destination: Tree, entries: seq<Path>)
    returns (r: Result<(Tree, seq<Path>)>)
    requires Distinct(entries) && Faithful(source, host, destination)
    requires forall p :: p in entries ==> p in source && p !in destination
    ensures r.Ok? ==> Added(source, destination, entries, r.value.0) && Faithful(source, host, r.value.0)
    ensures r.Ok? ==> DirectoriesAmong(source, entries, r.value.1)
    ensures r.Err? ==> !AllCopyable(source, host)
  {
    var copy, children := destination, [];
    for i := 0 to |entries|
      invariant Added(source, destination, entries[..i], copy) && Faithful(source, host, copy)
      invariant DirectoriesAmong(source, entries[..i], children)
    {
      var path := entries[i];
      assert path in entries && entries[..i + 1] == entries[..i] + [path];
      if !Omitted(path, false) {
        var added := CopyEntry(source, host, copy, path);
        if added.Err? {
          return Err;
        }
        copy := added.value;
        if source[path].Dir? {
          children := children + [path];
        }
      }
    }
    assert entries[..|entries|] == entries;
    return Ok((copy, children));
  }

  /** The copy holds exactly the kept entries of the visited directories. */
  ghost predicate CopiedBelow(t: Tree, host: Host, visited: seq<Path>, copy: Tree) {
    Faithful(t, host, copy) && forall p :: p in copy <==> Reached(t, false, visited, p)
  }

  lemma CopiedOneMore(t: Tree, host: Host, visited: seq<Path>, d: Path, entries: seq<Path>, before: Tree, after: Tree)
    requires CopiedBelow(t, host, visited, before) && Faithful(t, host, after) && Added(t, before, entries, after)
    requires forall p :: p in entries <==> ChildOf(t, p, d)
    ensures CopiedBelow(t, host, visited + [d], after)
  {
  }

  lemma CopyIsComplete(t: Tree, host: Host, visited: seq<Path>, copy: Tree)
    requires WellFormed(t) && VisitsEachOnce(t, false, visited) && CopiedBelow(t, host, visited, copy)
    ensures Copied(t, host) == Ok(copy)
  {
    forall p ensures p in copy <==> Kept(t, p) {
      ReachedIsAll(t, false, visited, p);
    }
    assert copy == CopyOf(t, host);
  }

  lemma ChildrenAreNewWork(t: Tree, d: Path, entries: seq<Path>, children: seq<Path>)
    requires forall p :: p in entries <==> ChildOf(t, p, d)
    requires DirectoriesAmong(t, entries, children)
    ensures NewWork(t, false, d, children)
  {
  }

  lemma NothingCopiedYet(t: Tree, host: Host, visited: seq<Path>, pending: seq<Path>, d: Path, copy: Tree, p: Path)
    requires Progress(t, false, visited, pending + [d]) && CopiedBelow(t, host, visited, copy) && ChildOf(t, p, d)
    ensures p !in copy
  {
    DistinctParts(visited, pending + [d]);
    assert d in pending + [d];
  }

  /** The walk over a stack of directories.  Its result is the copy of all that is kept, or an
      error exactly when something kept cannot be copied; it visits each kept directory once. */
  method CopyTree(source: Tree, host: Host) returns (r: Result<Tree>, ghost visited: seq<Path>)
    requires WellFormed(source)
    ensures r == Copied(source, host)
    ensures r.Ok? ==> VisitsEachOnce(source, false, visited)
  {
    var copy: Tree, directories := map[], [[]];
    visited := [];
    ghost var unseen := source.Keys + {[]};
    while directories != []
      invariant Progress(source, false, visited, directories)
      invariant CopiedBelow(source, host, visited, copy)
      invariant forall d :: d in unseen <==> (d == [] || d in source) && d !in visited
      decreases unseen
    {
      var relative := directories[|directories| - 1];
      ghost var rest := directories[..|directories| - 1];
      assert directories == rest + [relative];
      directories := directories[..|directories| - 1];
      var entries := ReadDirectory(source, relative);
      forall p | p in entries ensures p !in copy {
        NothingCopiedYet(source, host, visited, rest, relative, copy, p);
      }
      var added := CopyDirectory(source, host, copy, entries);
      if added.Err? {
        return Err, visited;
      }
      ChildrenAreNewWork(source, relative, entries, added.value.1);
      Step(source, false, visited, rest, relative, added.value.1);
      CopiedOneMore(source, host, visited, relative, entries, copy, added.value.0);
      copy := added.value.0;
      directories := directories + added.value.1;
      assert Wanted(source, false, relative) by { assert relative in rest + [relative]; }
      assert relative in unseen;
      unseen := unseen - {relative};
      visited := visited + [relative];
    }
    WalkIsComplete(source, false, visited);
    CopyIsComplete(source, host, visited, copy);
    return Ok(copy), visited;
  }
}
