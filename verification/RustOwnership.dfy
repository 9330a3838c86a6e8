/** Which Rust files are reached only by tests.  The class holds the file table that the
    worklist updates in place; its methods are proved against the chains of `RoleGraph`. */
module RustOwnership {
  import opened RoleGraph
  import opened Wrappers

  datatype FileRole = Source | TestRole | OtherRole

  datatype Range = Range(start: nat, end: nat)
  datatype Module = Module(candidates: seq<Path>, testOnly: bool)
  datatype Syntax = Syntax(testRanges: seq<Range>, modules: seq<Module>, fileTest: bool, uncertainModules: bool)
  datatype OwnedFile = OwnedFile(syntax: Syntax, reach: Roles, explicit: bool)
  type Files = map<Path, OwnedFile>

  /** A file as the caller classified it. */
  datatype ClassifiedFile = ClassifiedFile(path: Path, role: FileRole)

  /** One input: a manifest, a Rust file with or without a syntax tree, or neither. */
  datatype Input =
    | Manifest(parses: bool)
    | Unparsed(path: Path)
    | Parsed(path: Path, role: FileRole, syntax: Syntax, explicit: bool)
    | Unrelated

  ghost function ShapeOf(files: Files): Shape {
    map p | p in files :: files[p].syntax.fileTest
  }

  ghost function ReachFacts(files: Files): set<Fact> {
    set p, b | p in files && b in files[p].reach :: Fact(p, b)
  }

  /** Facts that are not recorded yet: what the worklist uses up. */
  ghost function MissingFacts(files: Files): set<Fact> {
    set p, b | p in files && b in {Production, Test} && b !in files[p].reach :: Fact(p, b)
  }

  ghost predicate SameButReach(before: Files, after: Files) {
    && before.Keys == after.Keys
    && forall p :: p in before ==> after[p] == before[p].(reach := after[p].reach)
  }

  /** Every recorded fact has already been carried over every edge. */
  ghost predicate Closed(files: Files, edges: Edges) {
    forall f, g :: f in ReachFacts(files) && Step(ShapeOf(files), edges, f, g) ==> g in ReachFacts(files)
  }

  /** What is recorded or will be, once the visit that waits for it is made. */
  ghost predicate Due(files: Files, pending: seq<Visit>, f: Fact) {
    f in ReachFacts(files) || f in SeedFacts(ShapeOf(files), pending)
  }

  ghost predicate AllStepsDue(files: Files, edges: Edges, pending: seq<Visit>) {
    forall f, g :: f in ReachFacts(files) && Step(ShapeOf(files), edges, f, g) ==> Due(files, pending, g)
  }

  /** The visits that one visited file sends on. */
  function Outgoing(targets: seq<Edge>, role: Roles): (r: seq<Visit>)
    ensures |r| == |targets|
  {
    seq(|targets|, i requires 0 <= i < |targets| =>
      Visit(targets[i].target, if targets[i].testOnly then {Test} else role))
  }

  lemma OutgoingFacts(shape: Shape, edges: Edges, path: Path, role: Roles, f: Fact)
    requires path in shape && role != {}
    ensures f in SeedFacts(shape, Outgoing(Targets(edges, path), role)) <==>
            exists b :: b in role && Step(shape, edges, Fact(path, b), f)
  {
    var targets := Targets(edges, path);
    var out := Outgoing(targets, role);
    if f in SeedFacts(shape, out) {
      var v :| v in out && v.path in shape && v.path == f.path && f.bit in Effective(shape[v.path], v.role);
      var i :| 0 <= i < |out| && out[i] == v;
      var b: Bit :| b in role;
      var carrier := if shape[f.path] || targets[i].testOnly then b else f.bit;
      assert f.bit == Carried(shape[f.path], targets[i], carrier);
      assert Step(shape, edges, Fact(path, carrier), f);
    }
    if exists b :: b in role && Step(shape, edges, Fact(path, b), f) {
      var b :| b in role && Step(shape, edges, Fact(path, b), f);
      var e :| e in targets && e.target == f.path && f.bit == Carried(shape[f.path], e, b);
      var i :| 0 <= i < |targets| && targets[i] == e;
      assert out[i] in out;
      assert f.bit in Effective(shape[f.path], out[i].role);
    }
  }

  /** One effective visit keeps both halves of the worklist argument. */
  lemma VisitKeepsDue(before: Files, after: Files, edges: Edges, rest: seq<Visit>, v: Visit, role: Roles)
    requires v.path in before && role == Effective(before[v.path].syntax.fileTest, v.role) && role != {}
    requires after == before[v.path := before[v.path].(reach := before[v.path].reach + role)]
    requires AllStepsDue(before, edges, [v] + rest)
    ensures AllStepsDue(after, edges, rest + Outgoing(Targets(edges, v.path), role))
    ensures forall f :: Due(before, [v] + rest, f) ==> Due(after, rest + Outgoing(Targets(edges, v.path), role), f)
  {
    var shape := ShapeOf(before);
    assert ShapeOf(after) == shape;
    var out := Outgoing(Targets(edges, v.path), role);
    forall f | Due(before, [v] + rest, f)
      ensures Due(after, rest + out, f)
    {
      if f !in ReachFacts(before) {
        var w :| w in [v] + rest && w.path in shape && f.path == w.path && f.bit in Effective(shape[w.path], w.role);
        if w != v {
          assert w in rest + out;
        }
      }
    }
    forall f, g | f in ReachFacts(after) && Step(shape, edges, f, g)
      ensures Due(after, rest + out, g)
    {
      if f in ReachFacts(before) {
        assert Due(before, [v] + rest, g);
      } else {
        assert f == Fact(v.path, f.bit) && f.bit in role;
        OutgoingFacts(shape, edges, v.path, role, g);
        var w :| w in out && w.path in shape && g.path == w.path && g.bit in Effective(shape[w.path], w.role);
        assert w in rest + out;
      }
    }
  }

  /** Everything that waits was reached by a chain. */
  lemma VisitKeepsReached(files: Files, edges: Edges, seeds: set<Fact>, rest: seq<Visit>, v: Visit, role: Roles)
    requires v.path in files && role == Effective(files[v.path].syntax.fileTest, v.role) && role != {}
    requires forall f :: f in SeedFacts(ShapeOf(files), [v] + rest) ==> Reaches(ShapeOf(files), edges, seeds, f)
    ensures forall b :: b in role ==> Reaches(ShapeOf(files), edges, seeds, Fact(v.path, b))
    ensures forall f :: f in SeedFacts(ShapeOf(files), rest + Outgoing(Targets(edges, v.path), role)) ==>
                        Reaches(ShapeOf(files), edges, seeds, f)
  {
    var shape := ShapeOf(files);
    var out := Outgoing(Targets(edges, v.path), role);
    forall b | b in role
      ensures Reaches(shape, edges, seeds, Fact(v.path, b))
    {
      assert v in [v] + rest;
      assert Fact(v.path, b) in SeedFacts(shape, [v] + rest);
    }
    forall f | f in SeedFacts(shape, rest + out)
      ensures Reaches(shape, edges, seeds, f)
    {
      var w :| w in rest + out && w.path in shape && f.path == w.path && f.bit in Effective(shape[w.path], w.role);
      if w in rest {
        assert w in [v] + rest;
      } else {
        assert f in SeedFacts(shape, out);
        OutgoingFacts(shape, edges, v.path, role, f);
        var b :| b in role && Step(shape, edges, Fact(v.path, b), f);
        StepReaches(shape, edges, seeds, Fact(v.path, b), f);
      }
    }
  }

  /** When nothing waits, all that a chain reaches is recorded. */
  lemma NothingPendingIsComplete(files: Files, edges: Edges, seeds: set<Fact>)
    requires AllStepsDue(files, edges, [])
    requires forall f :: f in seeds ==> Due(files, [], f)
    ensures Closed(files, edges)
    ensures forall f :: Reaches(ShapeOf(files), edges, seeds, f) ==> f in ReachFacts(files)
  {
    var shape := ShapeOf(files);
    assert SeedFacts(shape, []) == {};
    assert forall f :: Due(files, [], f) ==> f in ReachFacts(files);
    forall f | Reaches(shape, edges, seeds, f)
      ensures f in ReachFacts(files)
    {
      var chain :| Chain(shape, edges, seeds, chain) && chain[|chain| - 1] == f;
      ClosedHoldsChain(shape, edges, seeds, ReachFacts(files), chain);
    }
  }

  /** What the worklist keeps true between two visits. */
  ghost predicate Progress(start: Files, files: Files, edges: Edges, seeds: set<Fact>, pending: seq<Visit>) {
    && SameButReach(start, files)
    && ReachFacts(start) <= ReachFacts(files)
    && (forall f :: f in ReachFacts(files) ==> f in ReachFacts(start) || Reaches(ShapeOf(files), edges, seeds, f))
    && (forall f :: f in SeedFacts(ShapeOf(files), pending) ==> Reaches(ShapeOf(files), edges, seeds, f))
    && AllStepsDue(files, edges, pending)
    && (forall f :: f in seeds ==> Due(files, pending, f))
  }

  lemma StartIsProgress(files: Files, edges: Edges, visits: seq<Visit>)
    requires Closed(files, edges)
    ensures Progress(files, files, edges, SeedFacts(ShapeOf(files), visits), visits)
  {
    var seeds := SeedFacts(ShapeOf(files), visits);
    forall f | f in seeds
      ensures Reaches(ShapeOf(files), edges, seeds, f)
    {
      SeedReaches(ShapeOf(files), edges, seeds, f);
    }
  }

  /** A visit that changes nothing can be dropped. */
  lemma SkipIsProgress(start: Files, files: Files, edges: Edges, seeds: set<Fact>, rest: seq<Visit>, v: Visit)
    requires Progress(start, files, edges, seeds, [v] + rest)
    requires v.path in files ==> Effective(files[v.path].syntax.fileTest, v.role) <= files[v.path].reach
    ensures Progress(start, files, edges, seeds, rest)
  {
    assert forall w :: w in [v] + rest <==> w == v || w in rest;
    assert forall f :: Due(files, [v] + rest, f) ==> Due(files, rest, f);
    assert SeedFacts(ShapeOf(files), rest) <= SeedFacts(ShapeOf(files), [v] + rest);
  }

  lemma VisitUsesUpFacts(before: Files, after: Files, v: Visit, role: Roles)
    requires v.path in before && !(role <= before[v.path].reach)
    requires after == before[v.path := before[v.path].(reach := before[v.path].reach + role)]
    ensures MissingFacts(after) < MissingFacts(before)
  {
    var b :| b in role && b !in before[v.path].reach;
    assert b.Production? || b.Test?;
    assert Fact(v.path, b) in MissingFacts(before) && Fact(v.path, b) !in MissingFacts(after);
    assert MissingFacts(after) <= MissingFacts(before);
  }

  lemma VisitIsProgress(start: Files, before: Files, after: Files, edges: Edges, seeds: set<Fact>,
                        rest: seq<Visit>, v: Visit, role: Roles)
    requires Progress(start, before, edges, seeds, [v] + rest)
    requires v.path in before && role == Effective(before[v.path].syntax.fileTest, v.role) && role != {}
    requires after == before[v.path := before[v.path].(reach := before[v.path].reach + role)]
    ensures Progress(start, after, edges, seeds, rest + Outgoing(Targets(edges, v.path), role))
  {
    hide AllStepsDue, Due, Effective, Targets, Outgoing;
    VisitReaches(start, before, after, v, role);
    VisitKeepsReached(before, edges, seeds, rest, v, role);
    VisitKeepsDue(before, after, edges, rest, v, role);
  }

  lemma VisitReaches(start: Files, before: Files, after: Files, v: Visit, role: Roles)
    requires SameButReach(start, before) && v.path in before
    requires after == before[v.path := before[v.path].(reach := before[v.path].reach + role)]
    ensures SameButReach(start, after) && ShapeOf(after) == ShapeOf(before)
    ensures ReachFacts(before) <= ReachFacts(after)
    ensures forall f :: f in ReachFacts(after) ==> f in ReachFacts(before) || f in FactsAt(v.path, role)
  {
  }

  ghost function FactsAt(path: Path, role: Roles): set<Fact> {
    set b | b in role :: Fact(path, b)
  }

  /** When nothing waits, what is recorded is what was recorded before and what a chain reaches. */
  lemma FinishedProgress(start: Files, files: Files, edges: Edges, seeds: set<Fact>)
    requires Progress(start, files, edges, seeds, [])
    ensures Closed(files, edges)
    ensures forall f :: f in ReachFacts(files) <==>
                        f in ReachFacts(start) || Reaches(ShapeOf(files), edges, seeds, f)
  {
    NothingPendingIsComplete(files, edges, seeds);
  }

  /** The recorded bits are those of `start` and those that a chain carries from a seed. */
  ghost predicate Spread(start: Files, files: Files, edges: Edges, seeds: set<Fact>) {
    && SameButReach(start, files)
    && forall p, b :: p in files ==>
         (b in files[p].reach <==> b in start[p].reach || Reaches(ShapeOf(files), edges, seeds, Fact(p, b)))
  }

  /** The equations of the role spread: start and seeds are below the solution, and what a
      file holds is offered along each of its edges as `propagate` offers it. */
  ghost predicate Solves(start: Files, edges: Edges, seeds: set<Fact>, solution: map<Path, Roles>) {
    && solution.Keys == start.Keys
    && (forall p :: p in start ==> start[p].reach <= solution[p])
    && (forall f :: f in seeds && f.path in start ==> f.bit in solution[f.path])
    && forall p, e :: p in start && solution[p] != {} && e in Targets(edges, p) && e.target in start ==>
         Effective(start[e.target].syntax.fileTest, if e.testOnly then {Test} else solution[p]) <= solution[e.target]
  }

  /** The spread solves the equations and lies below every solution, so it is one table whatever
      the order of the queue was. */
  lemma SpreadIsLeastSolution(start: Files, files: Files, edges: Edges, seeds: set<Fact>, other: map<Path, Roles>)
    requires Spread(start, files, edges, seeds) && Closed(files, edges)
    requires forall f :: f in seeds ==> f.path in start
    ensures Solves(start, edges, seeds, map p | p in files :: files[p].reach)
    ensures Solves(start, edges, seeds, other) ==> forall p :: p in files ==> files[p].reach <= other[p]
  {
    var shape := ShapeOf(files);
    assert shape == ShapeOf(start);
    forall f | f in seeds
      ensures f.bit in files[f.path].reach
    {
      SeedReaches(shape, edges, seeds, f);
      assert Fact(f.path, f.bit) == f;
    }
    forall p, e, c | p in files && files[p].reach != {} && e in Targets(edges, p) && e.target in files &&
                     c in Effective(shape[e.target], if e.testOnly then {Test} else files[p].reach)
      ensures c in files[e.target].reach
    {
      var any :| any in files[p].reach;
      var b := if shape[e.target] || e.testOnly then any else c;
      assert c == Carried(shape[e.target], e, b);
      assert Fact(p, b) in ReachFacts(files) && Step(shape, edges, Fact(p, b), Fact(e.target, c));
      assert Fact(e.target, c) in ReachFacts(files);
    }
    if Solves(start, edges, seeds, other) {
      SolutionHoldsSpread(start, edges, seeds, other);
      forall p, b | p in files && b in files[p].reach
        ensures b in other[p]
      {
        if b !in start[p].reach {
          assert Reaches(shape, edges, seeds, Fact(p, b));
        }
      }
    }
  }

  lemma SolutionHoldsSpread(start: Files, edges: Edges, seeds: set<Fact>, other: map<Path, Roles>)
    requires Solves(start, edges, seeds, other)
    requires forall f :: f in seeds ==> f.path in start
    ensures forall f :: Reaches(ShapeOf(start), edges, seeds, f) ==> f.path in start && f.bit in other[f.path]
  {
    var shape := ShapeOf(start);
    var held := set p, b | p in start && b in other[p] :: Fact(p, b);
    forall f, g | f in held && Step(shape, edges, f, g)
      ensures g in held
    {
      var e :| e in Targets(edges, f.path) && e.target == g.path && g.bit == Carried(shape[g.path], e, f.bit);
      assert g.bit in Effective(shape[g.path], if e.testOnly then {Test} else other[f.path]);
      assert g == Fact(g.path, g.bit);
    }
    forall f | f in seeds
      ensures f in held
    {
      assert f == Fact(f.path, f.bit);
    }
    forall f | Reaches(shape, edges, seeds, f)
      ensures f in held
    {
      var chain :| Chain(shape, edges, seeds, chain) && chain[|chain| - 1] == f;
      ClosedHoldsChain(shape, edges, seeds, held, chain);
    }
  }

  /** Two runs from one table, with queues that seed the same facts, end in the same table. */
  lemma QueueOrderDoesNotMatter(start: Files, first: Files, second: Files, edges: Edges, seeds: set<Fact>)
    requires Spread(start, first, edges, seeds) && Spread(start, second, edges, seeds)
    ensures first == second
  {
    assert ShapeOf(first) == ShapeOf(second);
    forall p | p in first
      ensures first[p] == second[p]
    {
      assert forall b :: b in first[p].reach <==> b in second[p].reach;
      assert first[p].reach == second[p].reach;
    }
  }

  // ---------- the module graph ----------

  function Existing(paths: set<Path>, candidates: seq<Path>): seq<Path> {
    if candidates == [] then []
    else (if candidates[0] in paths then [candidates[0]] else []) + Existing(paths, candidates[1..])
  }

  /** A module declaration gives an edge when exactly one of its candidates exists. */
  function ModuleEdge(paths: set<Path>, module_: Module): seq<Edge> {
    var found := Existing(paths, module_.candidates);
    if |found| == 1 then [Edge(found[0], module_.testOnly)] else []
  }

  function ModuleEdges(paths: set<Path>, modules: seq<Module>): seq<Edge> {
    if modules == [] then []
    else ModuleEdges(paths, modules[..|modules| - 1]) + ModuleEdge(paths, modules[|modules| - 1])
  }

  lemma ModuleEdgesExtend(paths: set<Path>, modules: seq<Module>, i: nat)
    requires i < |modules|
    ensures ModuleEdges(paths, modules[..i + 1]) == ModuleEdges(paths, modules[..i]) + ModuleEdge(paths, modules[i])
  {
    assert modules[..i + 1][..i] == modules[..i];
  }

  ghost function EdgesOf(files: Files): Edges {
    map p | p in files && ModuleEdges(files.Keys, files[p].syntax.modules) != [] ::
      ModuleEdges(files.Keys, files[p].syntax.modules)
  }

  ghost function IncomingOf(edges: Edges): set<Path> {
    set p, e | p in edges && e in edges[p] :: e.target
  }

  function ConventionalRoot(path: Path): bool {
    path != [] && path[|path| - 1] in {"lib.rs", "main.rs"}
  }

  type RoleMap = map<Path, Roles>

  /** The role a file starts with: its Cargo target's, else its declared one, else production
      for a file that nothing declares as a module and for conventional roots. */
  function RootRole(roots: RoleMap, declared: RoleMap, incoming: set<Path>, path: Path): Option<Roles> {
    if path in roots then Some(roots[path])
    else if path in declared then Some(declared[path])
    else if path !in incoming || ConventionalRoot(path) then Some({Production})
    else None
  }

  function FileVisits(path: Path, file: OwnedFile, role: Option<Roles>): seq<Visit> {
    (if role.Some? then [Visit(path, role.value)] else []) +
    (if file.syntax.fileTest then [Visit(path, {Test})] else [])
  }

  ghost function FileSeeds(files: Files, roots: RoleMap, declared: RoleMap, path: Path): set<Fact>
    requires path in files
  {
    SeedFacts(ShapeOf(files),
              FileVisits(path, files[path], RootRole(roots, declared, IncomingOf(EdgesOf(files)), path)))
  }

  ghost function SeedsOn(files: Files, roots: RoleMap, declared: RoleMap, on: set<Path>): set<Fact>
    requires on <= files.Keys
  {
    set p, f | p in on && f in FileSeeds(files, roots, declared, p) :: f
  }

  ghost function Seeds(files: Files, roots: RoleMap, declared: RoleMap): set<Fact> {
    SeedsOn(files, roots, declared, files.Keys)
  }

  lemma SeedsOnOneMore(files: Files, roots: RoleMap, declared: RoleMap, on: set<Path>, path: Path)
    requires on <= files.Keys && path in files
    ensures SeedsOn(files, roots, declared, on + {path}) ==
            SeedsOn(files, roots, declared, on) + FileSeeds(files, roots, declared, path)
  {
  }

  /** Files that no seed reaches: a disconnected cycle and what hangs from it. */
  ghost function Stranded(files: Files, roots: RoleMap, declared: RoleMap): set<Path> {
    set p | p in files &&
            forall b :: !Reaches(ShapeOf(files), EdgesOf(files), Seeds(files, roots, declared), Fact(p, b))
  }

  ghost function StrandedFacts(files: Files, roots: RoleMap, declared: RoleMap): set<Fact> {
    set p | p in Stranded(files, roots, declared) :: Fact(p, Production)
  }

  ghost function AllSeeds(files: Files, roots: RoleMap, declared: RoleMap): set<Fact> {
    Seeds(files, roots, declared) + StrandedFacts(files, roots, declared)
  }

  /** The table after `resolve`: a bit is on exactly when a chain carries it from a seed. */
  ghost predicate Resolved(start: Files, files: Files, roots: RoleMap, declared: RoleMap) {
    && SameButReach(start, files)
    && forall p, b :: p in files ==>
         (b in files[p].reach <==>
          Reaches(ShapeOf(start), EdgesOf(start), AllSeeds(start, roots, declared), Fact(p, b)))
  }

  lemma FactsAreBits(start: Files, files: Files, edges: Edges, seeds: set<Fact>)
    requires SameButReach(start, files)
    requires forall f :: f in ReachFacts(files) <==>
                         f in ReachFacts(start) || Reaches(ShapeOf(files), edges, seeds, f)
    ensures Spread(start, files, edges, seeds)
  {
    forall p, b | p in files
      ensures b in files[p].reach <==> b in start[p].reach || Reaches(ShapeOf(files), edges, seeds, Fact(p, b))
    {
      assert b in files[p].reach <==> Fact(p, b) in ReachFacts(files);
      assert b in start[p].reach <==> Fact(p, b) in ReachFacts(start);
    }
  }

  // ---------- what the inputs say ----------

  function TableOf(inputs: seq<Input>): Files {
    if inputs == [] then map[]
    else
      var table := TableOf(inputs[..|inputs| - 1]);
      match inputs[|inputs| - 1]
      case Parsed(path, _, syntax, explicit) => table[path := OwnedFile(syntax, {}, explicit)]
      case _ => table
  }

  function DeclaredIn(inputs: seq<Input>): RoleMap {
    if inputs == [] then map[]
    else
      var declared := DeclaredIn(inputs[..|inputs| - 1]);
      match inputs[|inputs| - 1]
      case Parsed(path, role, _, _) => if role == TestRole then declared[path := {Test}] else declared
      case _ => declared
  }

  lemma {:induction false} TablesStartEmpty(inputs: seq<Input>)
    ensures forall p :: p in TableOf(inputs) ==> TableOf(inputs)[p].reach == {}
    ensures forall p :: p in DeclaredIn(inputs) ==> DeclaredIn(inputs)[p] == {Test}
  {
    if inputs != [] {
      TablesStartEmpty(inputs[..|inputs| - 1]);
    }
  }

  ghost predicate IncompleteIn(inputs: seq<Input>) {
    exists i :: 0 <= i < |inputs| && (inputs[i].Unparsed? || (inputs[i].Manifest? && !inputs[i].parses))
  }

  /** Plain module edges join the file to a production seed or to a file that no seed reaches. */
  ghost predicate ProductionLinked(inputs: seq<Input>, roots: RoleMap, path: Path) {
    var table := TableOf(inputs);
    LinkedPlainly(ShapeOf(table), EdgesOf(table), ProductionOrigins(AllSeeds(table, roots, DeclaredIn(inputs))), path)
  }

  /** Some input could not be read, or production code declares modules that are not certain. */
  ghost predicate Untrusted(inputs: seq<Input>, roots: RoleMap) {
    || IncompleteIn(inputs)
    || exists p :: p in TableOf(inputs) && TableOf(inputs)[p].syntax.uncertainModules &&
                   ProductionLinked(inputs, roots, p)
  }

  /** The table that `from_inputs` leaves, told by the inputs alone. */
  ghost predicate Settled(inputs: seq<Input>, roots: RoleMap, files: Files) {
    && SameButReach(TableOf(inputs), files)
    && (forall p :: p in files ==> files[p].reach != {})
    && forall p :: p in files ==>
         (Production in files[p].reach <==>
          !files[p].syntax.fileTest && (Untrusted(inputs, roots) || ProductionLinked(inputs, roots, p)))
  }

  lemma AllSeedsAreProper(files: Files, roots: RoleMap, declared: RoleMap)
    ensures ProperSeeds(ShapeOf(files), AllSeeds(files, roots, declared))
  {
    forall f | f in StrandedFacts(files, roots, declared)
      ensures f.path in files && !files[f.path].syntax.fileTest
    {
      StrandedFilesAreNotTests(files, roots, declared, f.path);
    }
    forall f | f in Seeds(files, roots, declared)
      ensures f.path in files && (files[f.path].syntax.fileTest ==> f.bit == Test)
    {
      var p :| p in files && f in FileSeeds(files, roots, declared, p);
    }
  }

  /** After `resolve` every file has a role, test files are never production, and the others
      are production exactly when plain module edges lead to them from an origin. */
  lemma ResolvedTable(start: Files, files: Files, roots: RoleMap, declared: RoleMap)
    requires Resolved(start, files, roots, declared)
    ensures forall p :: p in files ==> files[p].reach != {}
    ensures forall p :: p in files && files[p].syntax.fileTest ==> Production !in files[p].reach
    ensures forall p :: p in files ==>
              (Production in files[p].reach <==>
               LinkedPlainly(ShapeOf(start), EdgesOf(start), ProductionOrigins(AllSeeds(start, roots, declared)), p))
  {
    var shape, edges, seeds := ShapeOf(start), EdgesOf(start), AllSeeds(start, roots, declared);
    AllSeedsAreProper(start, roots, declared);
    forall p | p in files
      ensures files[p].reach != {}
      ensures Production in files[p].reach <==> LinkedPlainly(shape, edges, ProductionOrigins(seeds), p)
      ensures files[p].syntax.fileTest ==> Production !in files[p].reach
    {
      ProductionTravelsPlainly(shape, edges, seeds, p);
      assert Production in files[p].reach <==> Reaches(shape, edges, seeds, Fact(p, Production));
      ReachesFromUnion(shape, edges, Seeds(start, roots, declared), StrandedFacts(start, roots, declared));
      if p in Stranded(start, roots, declared) {
        SeedReaches(shape, edges, seeds, Fact(p, Production));
      } else {
        var b :| Reaches(shape, edges, Seeds(start, roots, declared), Fact(p, b));
        assert b in files[p].reach;
      }
    }
  }

  /** Withdrawing the proof on demand, told apart from where production comes from. */
  lemma WithdrawnTable(resolved: Files, files: Files, withdraw: bool)
    requires forall p :: p in resolved ==> resolved[p].reach != {}
    requires forall p :: p in resolved && resolved[p].syntax.fileTest ==> Production !in resolved[p].reach
    requires files == if withdraw then WithoutProof(resolved) else resolved
    ensures SameButReach(resolved, files)
    ensures forall p :: p in files ==> files[p].reach != {}
    ensures forall p :: p in files ==>
              (Production in files[p].reach <==>
               !files[p].syntax.fileTest && (withdraw || Production in resolved[p].reach))
  {
  }

  /** What `from_inputs` leaves: the resolved table, or the table without the module proof. */
  lemma ProofWithdrawnWhenUntrusted(inputs: seq<Input>, roots: RoleMap, resolved: Files, files: Files)
    requires Resolved(TableOf(inputs), resolved, roots, DeclaredIn(inputs))
    requires files ==
             if IncompleteIn(inputs) ||
                exists p :: p in resolved && Production in resolved[p].reach && resolved[p].syntax.uncertainModules
             then WithoutProof(resolved) else resolved
    ensures Settled(inputs, roots, files)
  {
    ResolvedTable(TableOf(inputs), resolved, roots, DeclaredIn(inputs));
    ghost var linked := set p | p in resolved && ProductionLinked(inputs, roots, p);
    assert forall p :: p in resolved ==> (Production in resolved[p].reach <==> p in linked);
    WithdrawnTable(resolved, files, Untrusted(inputs, roots));
  }

  // ---------- disconnected cycles ----------

  ghost predicate Declares(files: Files, parent: Path, child: Path) {
    exists e :: e in Targets(EdgesOf(files), parent) && e.target == child
  }

  /** A file that no seed reaches is declared as a module by another such file. */
  lemma StrandedHasStrandedParent(files: Files, roots: RoleMap, declared: RoleMap, path: Path) returns (parent: Path)
    requires forall p :: p in roots ==> roots[p] != {}
    requires forall p :: p in declared ==> declared[p] != {}
    requires path in Stranded(files, roots, declared)
    ensures parent in Stranded(files, roots, declared)
    ensures Declares(files, parent, path)
  {
    var shape, edges, seeds := ShapeOf(files), EdgesOf(files), Seeds(files, roots, declared);
    StrandedFilesAreNotTests(files, roots, declared, path);
    var role := RootRole(roots, declared, IncomingOf(edges), path);
    if role.Some? {
      var b :| b in role.value;
      assert Visit(path, role.value) in FileVisits(path, files[path], role);
      assert Fact(path, b) in FileSeeds(files, roots, declared, path);
      SeedReaches(shape, edges, seeds, Fact(path, b));
      assert false;
    }
    var e: Edge;
    parent, e :| parent in edges && e in edges[parent] && e.target == path;
    forall b
      ensures !Reaches(shape, edges, seeds, Fact(parent, b))
    {
      if Reaches(shape, edges, seeds, Fact(parent, b)) {
        var g := Fact(path, Carried(shape[path], e, b));
        assert Step(shape, edges, Fact(parent, b), g);
        StepReaches(shape, edges, seeds, Fact(parent, b), g);
      }
    }
  }

  /** Each file of the walk is declared as a module by the next, and no seed reaches any. */
  ghost predicate StrandedWalk(files: Files, roots: RoleMap, declared: RoleMap, walk: seq<Path>) {
    && (forall i :: 0 <= i < |walk| ==> walk[i] in Stranded(files, roots, declared))
    && forall i :: 0 < i < |walk| ==> Declares(files, walk[i], walk[i - 1])
  }

  lemma {:induction false} WalkUp(files: Files, roots: RoleMap, declared: RoleMap, path: Path, n: nat)
    returns (walk: seq<Path>)
    requires forall p :: p in roots ==> roots[p] != {}
    requires forall p :: p in declared ==> declared[p] != {}
    requires path in Stranded(files, roots, declared)
    ensures |walk| == n + 1 && walk[0] == path && StrandedWalk(files, roots, declared, walk)
  {
    hide Declares;
    if n == 0 {
      walk := [path];
    } else {
      var shorter := WalkUp(files, roots, declared, path, n - 1);
      var parent := StrandedHasStrandedParent(files, roots, declared, shorter[n - 1]);
      walk := shorter + [parent];
      LongerWalk(files, roots, declared, shorter, parent);
    }
  }

  lemma LongerWalk(files: Files, roots: RoleMap, declared: RoleMap, walk: seq<Path>, parent: Path)
    requires StrandedWalk(files, roots, declared, walk) && walk != []
    requires parent in Stranded(files, roots, declared) && Declares(files, parent, walk[|walk| - 1])
    ensures StrandedWalk(files, roots, declared, walk + [parent])
  {
    hide Stranded, Declares;
  }

  lemma {:induction false} Pigeonhole(holes: set<Path>, walk: seq<Path>) returns (i: nat, j: nat)
    requires forall k :: 0 <= k < |walk| ==> walk[k] in holes
    requires |walk| > |holes|
    ensures i < j < |walk| && walk[i] == walk[j]
  {
    var last := |walk| - 1;
    if k :| 0 <= k < last && walk[k] == walk[last] {
      i, j := k, last;
    } else {
      i, j := Pigeonhole(holes - {walk[last]}, walk[..last]);
    }
  }

  /** What no seed reaches hangs from a cycle of module declarations that no seed reaches. */
  lemma StrandedHangsFromCycle(files: Files, roots: RoleMap, declared: RoleMap, path: Path)
    returns (walk: seq<Path>, i: nat, j: nat)
    requires forall p :: p in roots ==> roots[p] != {}
    requires forall p :: p in declared ==> declared[p] != {}
    requires path in Stranded(files, roots, declared)
    ensures i < j < |walk| && walk[i] == walk[j] && walk[0] == path
    ensures StrandedWalk(files, roots, declared, walk)
  {
    walk := WalkUp(files, roots, declared, path, |files.Keys|);
    assert Stranded(files, roots, declared) <= files.Keys;
    i, j := Pigeonhole(files.Keys, walk);
  }

  // ---------- roles ----------

  function FileRoleIn(files: Files, file: ClassifiedFile): FileRole {
    if file.role == Source && file.path in files && files[file.path].reach == {Test} && !files[file.path].explicit
    then TestRole else file.role
  }

  /** A source file is re-roled exactly when production does not reach it. */
  lemma SourceBecomesTestExactly(files: Files, file: ClassifiedFile)
    requires file.path in files && files[file.path].reach != {} && file.role == Source
    ensures FileRoleIn(files, file) == TestRole <==>
            !files[file.path].explicit && Production !in files[file.path].reach
  {
    var reach := files[file.path].reach;
    if Production !in reach {
      var b :| b in reach;
      assert forall c :: c in reach ==> c == Test;
      assert reach == {Test};
    }
  }

  /** From the inputs to the role: a source file is re-roled as test code exactly when no custom
      rule fixes its role and it is a test file, or the context is trusted and no chain of plain
      module edges leads to it from production or from an unresolved cycle. */
  lemma ReRoledExactly(inputs: seq<Input>, roots: RoleMap, files: Files, file: ClassifiedFile)
    requires Settled(inputs, roots, files)
    requires file.role == Source
    ensures FileRoleIn(files, file) == TestRole <==>
            && file.path in TableOf(inputs)
            && !TableOf(inputs)[file.path].explicit
            && (TableOf(inputs)[file.path].syntax.fileTest ||
                (!Untrusted(inputs, roots) && !ProductionLinked(inputs, roots, file.path)))
  {
    if file.path in files {
      SourceBecomesTestExactly(files, file);
    }
  }

  /** Withdrawing the proof can take files out of the test role, never put one in. */
  lemma WithoutProofOnlyAddsProduction(files: Files, file: ClassifiedFile)
    ensures FileRoleIn(WithoutProof(files), file) == FileRoleIn(files, file) ||
            (file.role == Source && FileRoleIn(WithoutProof(files), file) == Source)
    ensures file.role == Source && file.path in files && !files[file.path].syntax.fileTest ==>
              FileRoleIn(WithoutProof(files), file) == Source
  {
    if file.path in files && !files[file.path].syntax.fileTest {
      assert Production in WithoutProof(files)[file.path].reach;
    }
  }

  class RustOwnership {
    var files: Files

    /** Reads the inputs, resolves, and withdraws the proof where context is missing. */
    constructor FromInputs(inputs: seq<Input>, roots: RoleMap)
      ensures Settled(inputs, roots, files)
    {
      files := map[];
      new;
      var table, declared, incomplete := ReadInputs(inputs);
      files := table;
      TablesStartEmpty(inputs);
      Resolve(roots, declared);
      ghost var resolved := files;
      if incomplete || exists p :: p in files && Production in files[p].reach && files[p].syntax.uncertainModules {
        DisableModuleProof();
      }
      ProofWithdrawnWhenUntrusted(inputs, roots, resolved, files);
    }

    static method ReadInputs(inputs: seq<Input>) returns (table: Files, declared: RoleMap, incomplete: bool)
      ensures table == TableOf(inputs) && declared == DeclaredIn(inputs)
      ensures incomplete <==> IncompleteIn(inputs)
    {
      table, declared := map[], map[];
      incomplete := exists i :: 0 <= i < |inputs| && inputs[i].Manifest? && !inputs[i].parses;
      for i := 0 to |inputs|
        invariant table == TableOf(inputs[..i]) && declared == DeclaredIn(inputs[..i])
        invariant incomplete <==>
                  (exists k :: 0 <= k < |inputs| && inputs[k].Manifest? && !inputs[k].parses) ||
                  exists k :: 0 <= k < i && inputs[k].Unparsed?
      {
        assert inputs[..i + 1][..i] == inputs[..i];
        match inputs[i]
        case Manifest(_) =>
        case Unrelated =>
        case Unparsed(_) => incomplete := true;
        case Parsed(path, role, syntax, explicit) =>
          if role == TestRole {
            declared := declared[path := {Test}];
          }
          table := table[path := OwnedFile(syntax, {}, explicit)];
      }
      assert inputs[..|inputs|] == inputs;
    }

    /** The worklist.  Whatever the order of the queue, a bit is recorded exactly when it
        was recorded before or some chain carries it from a seed. */
    method Propagate(edges: Edges, visits: seq<Visit>)
      requires Closed(files, edges)
      modifies this
      ensures Spread(old(files), files, edges, SeedFacts(ShapeOf(old(files)), visits))
      ensures Closed(files, edges)
    {
      var pending := visits;
      ghost var start := files;
      ghost var seeds := SeedFacts(ShapeOf(files), visits);
      StartIsProgress(files, edges, visits);
      while pending != []
        invariant Progress(start, files, edges, seeds, pending)
        decreases MissingFacts(files), |pending|
      {
        var v := pending[0];
        assert pending == [v] + pending[1..];
        pending := pending[1..];
        if v.path !in files {
          SkipIsProgress(start, files, edges, seeds, pending, v);
          continue;
        }
        var file := files[v.path];
        var role := if file.syntax.fileTest then {Test} else v.role;
        if role <= file.reach {
          SkipIsProgress(start, files, edges, seeds, pending, v);
          continue;
        }
        ghost var before, rest := files, pending;
        files := files[v.path := file.(reach := file.reach + role)];
        var targets := Targets(edges, v.path);
        for i := 0 to |targets|
          invariant pending == rest + Outgoing(targets, role)[..i]
        {
          pending := pending + [Visit(targets[i].target, if targets[i].testOnly then {Test} else role)];
        }
        assert pending == rest + Outgoing(targets, role);
        VisitIsProgress(start, before, files, edges, seeds, rest, v, role);
        VisitUsesUpFacts(before, files, v, role);
      }
      FinishedProgress(start, files, edges, seeds);
      FactsAreBits(start, files, edges, seeds);
    }

    /** Builds the module graph, spreads the seeds, then treats what is left as production. */
    method Resolve(roots: RoleMap, declared: RoleMap)
      requires forall p :: p in files ==> files[p].reach == {}
      modifies this
      ensures Resolved(old(files), files, roots, declared)
    {
      ghost var start := files;
      var edges, incoming := ModuleGraph();
      var pending := SeedVisits(incoming, roots, declared);
      Propagate(edges, pending);
      ghost var middle := files;
      var unresolved := UnresolvedVisits();
      Propagate(edges, unresolved);
      TwoPassesResolve(start, middle, files, roots, declared, unresolved);
    }

    /** The edges between existing files, and the files that some declaration names. */
    method ModuleGraph() returns (edges: Edges, incoming: set<Path>)
      ensures edges == EdgesOf(files) && incoming == IncomingOf(edges)
    {
      edges, incoming := map[], {};
      var todo := files.Keys;
      while todo != {}
        invariant todo <= files.Keys
        invariant edges == map p | p in EdgesOf(files) && p !in todo :: EdgesOf(files)[p]
        invariant incoming == IncomingOf(edges)
      {
        var path :| path in todo;
        edges, incoming := AddModules(edges, incoming, path);
        todo := todo - {path};
      }
    }

    method AddModules(edges: Edges, incoming: set<Path>, path: Path) returns (more: Edges, named: set<Path>)
      requires path in files && path !in edges && incoming == IncomingOf(edges)
      ensures var found := ModuleEdges(files.Keys, files[path].syntax.modules);
              more == if found == [] then edges else edges[path := found]
      ensures named == IncomingOf(more)
    {
      more, named := edges, incoming;
      var modules := files[path].syntax.modules;
      for i := 0 to |modules|
        invariant var found := ModuleEdges(files.Keys, modules[..i]);
                  more == if found == [] then edges else edges[path := found]
        invariant named == IncomingOf(more)
      {
        ModuleEdgesExtend(files.Keys, modules, i);
        var candidates := Existing(files.Keys, modules[i].candidates);
        if |candidates| != 1 {
          assert ModuleEdges(files.Keys, modules[..i + 1]) == ModuleEdges(files.Keys, modules[..i]);
          continue;
        }
        var edge := Edge(candidates[0], modules[i].testOnly);
        PushedIncoming(more, more[path := Targets(more, path) + [edge]], path, edge);
        named := named + {edge.target};
        more := more[path := Targets(more, path) + [edge]];
        assert more == edges[path := ModuleEdges(files.Keys, modules[..i + 1])];
      }
      assert modules[..|modules|] == modules;
    }

    method SeedVisits(incoming: set<Path>, roots: RoleMap, declared: RoleMap) returns (pending: seq<Visit>)
      requires incoming == IncomingOf(EdgesOf(files))
      ensures SeedFacts(ShapeOf(files), pending) == Seeds(files, roots, declared)
    {
      pending := [];
      var todo := files.Keys;
      while todo != {}
        invariant todo <= files.Keys
        invariant SeedFacts(ShapeOf(files), pending) == SeedsOn(files, roots, declared, files.Keys - todo)
      {
        var path :| path in todo;
        var role := RootRole(roots, declared, incoming, path);
        ghost var before := pending;
        if role.Some? {
          pending := pending + [Visit(path, role.value)];
        }
        if files[path].syntax.fileTest {
          pending := pending + [Visit(path, {Test})];
        }
        assert pending == before + FileVisits(path, files[path], role);
        SeedsOfConcatenation(ShapeOf(files), before, FileVisits(path, files[path], role));
        SeedsOnOneMore(files, roots, declared, files.Keys - todo, path);
        assert files.Keys - (todo - {path}) == files.Keys - todo + {path};
        todo := todo - {path};
      }
    }

    method UnresolvedVisits() returns (pending: seq<Visit>)
      ensures forall v :: v in pending <==> v.path in files && files[v.path].reach == {} && v.role == {Production}
    {
      pending := [];
      var todo := files.Keys;
      while todo != {}
        invariant todo <= files.Keys
        invariant forall v :: v in pending <==>
                    v.path in files && v.path !in todo && files[v.path].reach == {} && v.role == {Production}
      {
        var path :| path in todo;
        if files[path].reach == {} {
          pending := pending + [Visit(path, {Production})];
        }
        todo := todo - {path};
      }
    }

    /** Missing context must not turn a shared module into test code. */
    method DisableModuleProof()
      modifies this
      ensures files == WithoutProof(old(files))
    {
      var todo := files.Keys;
      while todo != {}
        invariant todo <= files.Keys == old(files).Keys
        invariant forall p :: p in files ==>
                    files[p] == if p in todo then old(files)[p] else WithoutProof(old(files))[p]
      {
        var path :| path in todo;
        if !files[path].syntax.fileTest {
          files := files[path := files[path].(reach := files[path].reach + {Production})];
        }
        todo := todo - {path};
      }
    }
  }

  function WithoutProof(files: Files): Files {
    map p | p in files ::
      if files[p].syntax.fileTest then files[p] else files[p].(reach := files[p].reach + {Production})
  }

  lemma PushedIncoming(before: Edges, after: Edges, path: Path, edge: Edge)
    requires after == before[path := Targets(before, path) + [edge]]
    ensures IncomingOf(after) == IncomingOf(before) + {edge.target}
  {
    forall p | p in IncomingOf(before) + {edge.target}
      ensures p in IncomingOf(after)
    {
      if p == edge.target {
        assert edge in after[path];
      } else {
        var q, e :| q in before && e in before[q] && e.target == p;
        assert q in after && e in after[q];
      }
    }
    forall p | p in IncomingOf(after)
      ensures p in IncomingOf(before) + {edge.target}
    {
      var q, e :| q in after && e in after[q] && e.target == p;
      if q == path {
        assert e in Targets(before, path) || e == edge;
      }
    }
  }

  lemma SeedsOfConcatenation(shape: Shape, left: seq<Visit>, right: seq<Visit>)
    ensures SeedFacts(shape, left + right) == SeedFacts(shape, left) + SeedFacts(shape, right)
  {
  }

  lemma ReachesFromUnion(shape: Shape, edges: Edges, first: set<Fact>, second: set<Fact>)
    ensures forall f :: Reaches(shape, edges, first + second, f) <==>
                        Reaches(shape, edges, first, f) || Reaches(shape, edges, second, f)
  {
  }

  lemma TestFilesAreSeeded(files: Files, roots: RoleMap, declared: RoleMap, path: Path)
    requires path in files && files[path].syntax.fileTest
    ensures Fact(path, Test) in Seeds(files, roots, declared)
  {
    var role := RootRole(roots, declared, IncomingOf(EdgesOf(files)), path);
    assert Visit(path, {Test}) in FileVisits(path, files[path], role);
    assert Fact(path, Test) in FileSeeds(files, roots, declared, path);
  }

  lemma StrandedFilesAreNotTests(files: Files, roots: RoleMap, declared: RoleMap, path: Path)
    requires path in Stranded(files, roots, declared)
    ensures !files[path].syntax.fileTest
  {
    if files[path].syntax.fileTest {
      TestFilesAreSeeded(files, roots, declared, path);
      SeedReaches(ShapeOf(files), EdgesOf(files), Seeds(files, roots, declared), Fact(path, Test));
    }
  }

  lemma StrandedIsUnreached(start: Files, middle: Files, roots: RoleMap, declared: RoleMap)
    requires forall p :: p in start ==> start[p].reach == {}
    requires Spread(start, middle, EdgesOf(start), Seeds(start, roots, declared))
    ensures Stranded(start, roots, declared) == set p | p in middle && middle[p].reach == {}
  {
  }

  lemma VisitsOfStranded(start: Files, stranded: set<Path>, unresolved: seq<Visit>)
    requires forall p :: p in stranded ==> p in start && !start[p].syntax.fileTest
    requires forall v :: v in unresolved <==> v.path in stranded && v.role == {Production}
    ensures SeedFacts(ShapeOf(start), unresolved) == set p | p in stranded :: Fact(p, Production)
  {
    forall p | p in stranded
      ensures Fact(p, Production) in SeedFacts(ShapeOf(start), unresolved)
    {
      assert Visit(p, {Production}) in unresolved;
    }
  }

  lemma LateSeedsAreStranded(start: Files, middle: Files, roots: RoleMap, declared: RoleMap, unresolved: seq<Visit>)
    requires forall p :: p in start ==> start[p].reach == {}
    requires Spread(start, middle, EdgesOf(start), Seeds(start, roots, declared))
    requires forall v :: v in unresolved <==>
                         v.path in middle && middle[v.path].reach == {} && v.role == {Production}
    ensures SeedFacts(ShapeOf(start), unresolved) == StrandedFacts(start, roots, declared)
  {
    StrandedIsUnreached(start, middle, roots, declared);
    forall p | p in Stranded(start, roots, declared)
      ensures !start[p].syntax.fileTest
    {
      StrandedFilesAreNotTests(start, roots, declared, p);
    }
    VisitsOfStranded(start, Stranded(start, roots, declared), unresolved);
  }

  /** Spreading the seeds, then spreading production from what no seed reached, spreads all seeds. */
  lemma TwoPassesResolve(start: Files, middle: Files, end: Files, roots: RoleMap, declared: RoleMap,
                         unresolved: seq<Visit>)
    requires forall p :: p in start ==> start[p].reach == {}
    requires Spread(start, middle, EdgesOf(start), Seeds(start, roots, declared))
    requires forall v :: v in unresolved <==>
                         v.path in middle && middle[v.path].reach == {} && v.role == {Production}
    requires Spread(middle, end, EdgesOf(start), SeedFacts(ShapeOf(middle), unresolved)) && Closed(end, EdgesOf(start))
    ensures Resolved(start, end, roots, declared)
  {
    assert ShapeOf(middle) == ShapeOf(start);
    LateSeedsAreStranded(start, middle, roots, declared, unresolved);
    ReachesFromUnion(ShapeOf(start), EdgesOf(start), Seeds(start, roots, declared),
                     StrandedFacts(start, roots, declared));
    assert ShapeOf(end) == ShapeOf(start);
  }
}
