/** The two-bit role lattice of Rust module ownership and the facts that spread over it.

    A file's `reach` byte holds two bits, production and test; here it is the set of the
    bits that are on.  A fact says that one bit belongs to one file.  Facts travel along
    the module edges, and every claim about the worklist of `propagate` is made against
    the chains along which a fact can travel. */
module RoleGraph {
  /** A normalised path, as its components. */
  type Path = seq<string>

  datatype Bit = Production | Test
  type Roles = set<Bit>

  datatype Edge = Edge(target: Path, testOnly: bool)
  datatype Visit = Visit(path: Path, role: Roles)
  datatype Fact = Fact(path: Path, bit: Bit)

  /** Which files exist, and for each whether the whole file is test code. */
  type Shape = map<Path, bool>
  type Edges = map<Path, seq<Edge>>

  function Targets(edges: Edges, path: Path): seq<Edge> {
    if path in edges then edges[path] else []
  }

  /** The role a file takes when a role is offered to it: test files take no other. */
  function Effective(fileTest: bool, role: Roles): Roles {
    if fileTest then {Test} else role
  }

  /** The bit that a bit turns into when it crosses an edge into a file. */
  function Carried(fileTest: bool, edge: Edge, bit: Bit): Bit {
    if fileTest || edge.testOnly then Test else bit
  }

  ghost predicate Step(shape: Shape, edges: Edges, f: Fact, g: Fact) {
    f.path in shape && g.path in shape &&
    exists e :: e in Targets(edges, f.path) && e.target == g.path &&
                g.bit == Carried(shape[g.path], e, f.bit)
  }

  ghost predicate Chain(shape: Shape, edges: Edges, seeds: set<Fact>, chain: seq<Fact>) {
    && chain != []
    && chain[0] in seeds
    && forall i :: 0 < i < |chain| ==> Step(shape, edges, chain[i - 1], chain[i])
  }

  ghost predicate Reaches(shape: Shape, edges: Edges, seeds: set<Fact>, f: Fact) {
    exists chain :: Chain(shape, edges, seeds, chain) && chain[|chain| - 1] == f
  }

  lemma SeedReaches(shape: Shape, edges: Edges, seeds: set<Fact>, f: Fact)
    requires f in seeds
    ensures Reaches(shape, edges, seeds, f)
  {
    assert Chain(shape, edges, seeds, [f]);
    assert [f][|[f]| - 1] == f;
  }

  lemma StepReaches(shape: Shape, edges: Edges, seeds: set<Fact>, f: Fact, g: Fact)
    requires Reaches(shape, edges, seeds, f) && Step(shape, edges, f, g)
    ensures Reaches(shape, edges, seeds, g)
  {
    var chain :| Chain(shape, edges, seeds, chain) && chain[|chain| - 1] == f;
    var longer := chain + [g];
    assert Chain(shape, edges, seeds, longer);
    assert longer[|longer| - 1] == g;
  }

  /** A set of facts that holds the seeds and is closed under steps holds all that is reached. */
  lemma {:induction false} ClosedHoldsChain(shape: Shape, edges: Edges, seeds: set<Fact>,
                                            held: set<Fact>, chain: seq<Fact>)
    requires Chain(shape, edges, seeds, chain)
    requires seeds <= held
    requires forall f, g :: f in held && Step(shape, edges, f, g) ==> g in held
    ensures chain[|chain| - 1] in held
  {
    if |chain| > 1 {
      var before := chain[..|chain| - 1];
      ClosedHoldsChain(shape, edges, seeds, held, before);
      assert Step(shape, edges, chain[|chain| - 2], chain[|chain| - 1]);
    }
  }

  /** The facts that a list of visits seeds. */
  ghost function SeedFacts(shape: Shape, visits: seq<Visit>): set<Fact> {
    set v, b | v in visits && v.path in shape && b in Effective(shape[v.path], v.role) :: Fact(v.path, b)
  }

  /** A chain of paths joined by plain module edges, no file on it a test file. */
  ghost predicate PlainChain(shape: Shape, edges: Edges, origins: set<Path>, ps: seq<Path>) {
    && ps != []
    && ps[0] in origins
    && (forall i :: 0 <= i < |ps| ==> ps[i] in shape && !shape[ps[i]])
    && forall i :: 0 < i < |ps| ==> Edge(ps[i], false) in Targets(edges, ps[i - 1])
  }

  ghost predicate LinkedPlainly(shape: Shape, edges: Edges, origins: set<Path>, p: Path) {
    exists ps :: PlainChain(shape, edges, origins, ps) && ps[|ps| - 1] == p
  }

  /** The paths whose production bit is seeded. */
  ghost function ProductionOrigins(seeds: set<Fact>): set<Path> {
    set f | f in seeds && f.bit == Production :: f.path
  }

  /** Seeds as the worklist builds them: in the shape, and never production for a test file. */
  ghost predicate ProperSeeds(shape: Shape, seeds: set<Fact>) {
    forall f :: f in seeds ==> f.path in shape && (shape[f.path] ==> f.bit == Test)
  }

  lemma {:induction false} ProductionChainIsPlain(shape: Shape, edges: Edges, seeds: set<Fact>, chain: seq<Fact>)
    returns (ps: seq<Path>)
    requires ProperSeeds(shape, seeds)
    requires Chain(shape, edges, seeds, chain) && chain[|chain| - 1].bit == Production
    ensures PlainChain(shape, edges, ProductionOrigins(seeds), ps)
    ensures ps[|ps| - 1] == chain[|chain| - 1].path
  {
    var last := chain[|chain| - 1];
    if |chain| == 1 {
      ps := [last.path];
    } else {
      var before := chain[..|chain| - 1];
      assert Step(shape, edges, chain[|chain| - 2], last);
      var e :| e in Targets(edges, chain[|chain| - 2].path) && e.target == last.path &&
               last.bit == Carried(shape[last.path], e, chain[|chain| - 2].bit);
      assert e == Edge(last.path, false);
      var prefix := ProductionChainIsPlain(shape, edges, seeds, before);
      ps := prefix + [last.path];
    }
  }

  lemma {:induction false} PlainChainReaches(shape: Shape, edges: Edges, seeds: set<Fact>, ps: seq<Path>)
    requires PlainChain(shape, edges, ProductionOrigins(seeds), ps)
    ensures Reaches(shape, edges, seeds, Fact(ps[|ps| - 1], Production))
  {
    var f := Fact(ps[|ps| - 1], Production);
    if |ps| == 1 {
      SeedReaches(shape, edges, seeds, f);
    } else {
      var before := ps[..|ps| - 1];
      PlainChainReaches(shape, edges, seeds, before);
      var e := Edge(f.path, false);
      assert e in Targets(edges, before[|before| - 1]) && Carried(shape[f.path], e, Production) == Production;
      StepReaches(shape, edges, seeds, Fact(before[|before| - 1], Production), f);
    }
  }

  /** A production bit arrives exactly along plain edges between files that are not test files. */
  lemma ProductionTravelsPlainly(shape: Shape, edges: Edges, seeds: set<Fact>, p: Path)
    requires ProperSeeds(shape, seeds)
    ensures Reaches(shape, edges, seeds, Fact(p, Production)) <==>
            LinkedPlainly(shape, edges, ProductionOrigins(seeds), p)
  {
    if Reaches(shape, edges, seeds, Fact(p, Production)) {
      var chain :| Chain(shape, edges, seeds, chain) && chain[|chain| - 1] == Fact(p, Production);
      var ps := ProductionChainIsPlain(shape, edges, seeds, chain);
    }
    if LinkedPlainly(shape, edges, ProductionOrigins(seeds), p) {
      var ps :| PlainChain(shape, edges, ProductionOrigins(seeds), ps) && ps[|ps| - 1] == p;
      PlainChainReaches(shape, edges, seeds, ps);
    }
  }
}
