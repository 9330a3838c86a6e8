/** Which Rust files belong to production, said of the inputs alone: their last parsed versions, the
    modules they declare, the Cargo targets.  What the table ends with means exactly this. */
module OwnershipMeaning {
  import opened RoleGraph
  import opened RoleViews
  import opened RustOwnership
  import opened Wrappers

  // ---------- what the inputs say of a path ----------

  ghost predicate ParsedAt(inputs: seq<Input>, i: nat, p: Path) {
    i < |inputs| && inputs[i].Parsed? && inputs[i].path == p
  }

  ghost predicate IsFile(inputs: seq<Input>, p: Path) {
    exists i: nat :: ParsedAt(inputs, i, p)
  }

  /** The last parsed input of a path is the one that counts. */
  ghost predicate LastAt(inputs: seq<Input>, i: nat, p: Path) {
    ParsedAt(inputs, i, p) && forall k :: i < k < |inputs| ==> !ParsedAt(inputs, k, p)
  }

  /** Some parsed input of the path classifies it as a test. */
  ghost predicate DeclaredTest(inputs: seq<Input>, p: Path) {
    exists i: nat :: ParsedAt(inputs, i, p) && inputs[i].role == TestRole
  }

  ghost predicate IsTestFile(inputs: seq<Input>, p: Path) {
    exists i: nat :: LastAt(inputs, i, p) && inputs[i].syntax.fileTest
  }

  /** The candidate at `k` is a file and no other candidate is. */
  ghost predicate OnlyFile(inputs: seq<Input>, candidates: seq<Path>, k: nat) {
    k < |candidates| && forall j :: 0 <= j < |candidates| ==> (IsFile(inputs, candidates[j]) <==> j == k)
  }

  /** A module that the file declares is found in just one file, the child. */
  ghost predicate DeclaresModule(inputs: seq<Input>, parent: Path, child: Path, testOnly: bool) {
    exists i: nat, m: nat, k: nat ::
      LastAt(inputs, i, parent) && m < |inputs[i].syntax.modules| &&
      OnlyFile(inputs, inputs[i].syntax.modules[m].candidates, k) &&
      inputs[i].syntax.modules[m].candidates[k] == child && inputs[i].syntax.modules[m].testOnly == testOnly
  }

  ghost predicate IsModule(inputs: seq<Input>, child: Path) {
    exists parent, testOnly :: DeclaresModule(inputs, parent, child, testOnly)
  }

  ghost predicate NamedAsRoot(p: Path) {
    p != [] && (p[|p| - 1] == "lib.rs" || p[|p| - 1] == "main.rs")
  }

  // ---------- where production starts ----------

  /** The file is production by itself. */
  ghost predicate StartsProduction(inputs: seq<Input>, roots: RoleMap, p: Path) {
    && IsFile(inputs, p) && !IsTestFile(inputs, p)
    && if p in roots then Production in roots[p]
       else !DeclaredTest(inputs, p) && (!IsModule(inputs, p) || NamedAsRoot(p))
  }

  /** The file has some role by itself. */
  ghost predicate StartsAnything(inputs: seq<Input>, roots: RoleMap, p: Path) {
    && IsFile(inputs, p)
    && (IsTestFile(inputs, p) ||
        if p in roots then roots[p] != {} else DeclaredTest(inputs, p) || !IsModule(inputs, p) || NamedAsRoot(p))
  }

  /** Each file of the walk declares the next one as a module. */
  ghost predicate ModuleWalk(inputs: seq<Input>, walk: seq<Path>) {
    && walk != [] && (forall i :: 0 <= i < |walk| ==> IsFile(inputs, walk[i]))
    && forall i :: 0 < i < |walk| ==>
         DeclaresModule(inputs, walk[i - 1], walk[i], false) || DeclaresModule(inputs, walk[i - 1], walk[i], true)
  }

  /** No module declarations lead to the file from one that has a role by itself. */
  ghost predicate LeftOver(inputs: seq<Input>, roots: RoleMap, p: Path) {
    IsFile(inputs, p) &&
    forall walk :: ModuleWalk(inputs, walk) && walk[|walk| - 1] == p ==> !StartsAnything(inputs, roots, walk[0])
  }

  /** Each file of the walk declares the next one as a module that is not for tests only, and none is a
      test file. */
  ghost predicate PlainWalk(inputs: seq<Input>, walk: seq<Path>) {
    && walk != [] && (forall i :: 0 <= i < |walk| ==> IsFile(inputs, walk[i]) && !IsTestFile(inputs, walk[i]))
    && forall i :: 0 < i < |walk| ==> DeclaresModule(inputs, walk[i - 1], walk[i], false)
  }

  ghost predicate FromProduction(inputs: seq<Input>, roots: RoleMap, p: Path) {
    exists walk :: PlainWalk(inputs, walk) && walk[|walk| - 1] == p &&
                   (StartsProduction(inputs, roots, walk[0]) || LeftOver(inputs, roots, walk[0]))
  }

  /** Some input could not be read, or production declares modules that cannot be told for certain. */
  ghost predicate InDoubt(inputs: seq<Input>, roots: RoleMap) {
    || (exists i :: 0 <= i < |inputs| && inputs[i].Unparsed?)
    || (exists i :: 0 <= i < |inputs| && inputs[i].Manifest? && !inputs[i].parses)
    || exists i: nat, p :: LastAt(inputs, i, p) && inputs[i].syntax.uncertainModules && FromProduction(inputs, roots, p)
  }

  // ---------- the table says the same ----------

  lemma {:induction false} LastExists(inputs: seq<Input>, p: Path) returns (i: nat)
    requires IsFile(inputs, p)
    ensures LastAt(inputs, i, p)
  {
    var last := |inputs| - 1;
    if ParsedAt(inputs, last, p) {
      i := last;
    } else {
      var k: nat :| ParsedAt(inputs, k, p);
      assert ParsedAt(inputs[..last], k, p);
      i := LastExists(inputs[..last], p);
      assert forall j :: i < j < last ==> (ParsedAt(inputs, j, p) <==> ParsedAt(inputs[..last], j, p));
    }
  }

  lemma LastOfLonger(inputs: seq<Input>, p: Path)
    requires inputs != []
    ensures var last := |inputs| - 1;
            if ParsedAt(inputs, last, p) then forall i: nat :: LastAt(inputs, i, p) <==> i == last
            else (forall i: nat :: LastAt(inputs, i, p) <==> LastAt(inputs[..last], i, p)) &&
                 (IsFile(inputs, p) <==> IsFile(inputs[..last], p))
  {
    var last := |inputs| - 1;
    assert forall i: nat :: i < last ==> (ParsedAt(inputs, i, p) <==> ParsedAt(inputs[..last], i, p));
  }

  /** The table holds for each path the syntax and the fixed role of its last parsed input. */
  lemma {:induction false} TableTells(inputs: seq<Input>, p: Path)
    ensures p in TableOf(inputs) <==> IsFile(inputs, p)
    ensures forall i: nat :: LastAt(inputs, i, p) ==>
              p in TableOf(inputs) && TableOf(inputs)[p] == OwnedFile(inputs[i].syntax, {}, inputs[i].explicit)
  {
    if inputs != [] {
      var last := |inputs| - 1;
      TableTells(inputs[..last], p);
      LastOfLonger(inputs, p);
      hide LastAt;
      if ParsedAt(inputs, last, p) {
        assert IsFile(inputs, p);
      }
    }
  }

  lemma {:induction false} DeclaredTells(inputs: seq<Input>, p: Path)
    ensures p in DeclaredIn(inputs) <==> DeclaredTest(inputs, p)
    ensures p in DeclaredIn(inputs) ==> DeclaredIn(inputs)[p] == {Test}
  {
    if inputs != [] {
      var last := |inputs| - 1;
      DeclaredTells(inputs[..last], p);
      assert forall i: nat :: i < last ==> (ParsedAt(inputs, i, p) <==> ParsedAt(inputs[..last], i, p));
      if i: nat :| i < last && ParsedAt(inputs[..last], i, p) && inputs[i].role == TestRole {
        assert ParsedAt(inputs, i, p);
      }
    }
  }

  ghost predicate FoundOnly(paths: set<Path>, candidates: seq<Path>, k: nat) {
    k < |candidates| && forall j :: 0 <= j < |candidates| ==> (candidates[j] in paths <==> j == k)
  }

  lemma {:induction false} ExistingNone(paths: set<Path>, candidates: seq<Path>)
    ensures Existing(paths, candidates) == [] <==> forall j :: 0 <= j < |candidates| ==> candidates[j] !in paths
  {
    if candidates != [] {
      ExistingNone(paths, candidates[1..]);
      if forall j :: 0 <= j < |candidates| - 1 ==> candidates[1..][j] !in paths {
        assert forall j :: 1 <= j < |candidates| ==> candidates[j] == candidates[1..][j - 1];
      }
      assert candidates[0] in paths ==> Existing(paths, candidates) != [];
      assert forall j :: 0 <= j < |candidates| - 1 ==> candidates[1..][j] == candidates[j + 1];
    }
  }

  lemma {:induction false} ExistingOne(paths: set<Path>, candidates: seq<Path>) returns (k: nat)
    requires |Existing(paths, candidates)| == 1
    ensures FoundOnly(paths, candidates, k) && Existing(paths, candidates) == [candidates[k]]
  {
    if candidates[0] in paths {
      ExistingNone(paths, candidates[1..]);
      k := 0;
      assert forall j :: 1 <= j < |candidates| ==> candidates[j] == candidates[1..][j - 1];
    } else {
      var i := ExistingOne(paths, candidates[1..]);
      k := i + 1;
      assert forall j :: 1 <= j < |candidates| ==> candidates[j] == candidates[1..][j - 1];
    }
  }

  lemma {:induction false} OneExisting(paths: set<Path>, candidates: seq<Path>, k: nat)
    requires FoundOnly(paths, candidates, k)
    ensures Existing(paths, candidates) == [candidates[k]]
  {
    if k == 0 {
      ExistingNone(paths, candidates[1..]);
    } else {
      assert FoundOnly(paths, candidates[1..], k - 1);
      OneExisting(paths, candidates[1..], k - 1);
    }
  }

  ghost predicate GivesEdge(paths: set<Path>, module_: Module, k: nat, e: Edge) {
    FoundOnly(paths, module_.candidates, k) && e == Edge(module_.candidates[k], module_.testOnly)
  }

  lemma ModuleEdgeTells(paths: set<Path>, module_: Module, e: Edge)
    ensures e in ModuleEdge(paths, module_) <==> exists k: nat :: GivesEdge(paths, module_, k, e)
  {
    if e in ModuleEdge(paths, module_) {
      var k := ExistingOne(paths, module_.candidates);
      assert GivesEdge(paths, module_, k, e);
    }
    if k: nat :| GivesEdge(paths, module_, k, e) {
      OneExisting(paths, module_.candidates, k);
    }
  }

  lemma {:induction false} ModuleEdgesTell(paths: set<Path>, modules: seq<Module>, e: Edge)
    ensures e in ModuleEdges(paths, modules) <==>
            exists m: nat, k: nat :: m < |modules| && GivesEdge(paths, modules[m], k, e)
  {
    if modules != [] {
      var last := |modules| - 1;
      ModuleEdgesTell(paths, modules[..last], e);
      ModuleEdgeTells(paths, modules[last], e);
      if m: nat, k: nat :| m < last && GivesEdge(paths, modules[..last][m], k, e) {
        assert GivesEdge(paths, modules[m], k, e);
      }
      if m: nat, k: nat :| m < |modules| && GivesEdge(paths, modules[m], k, e) {
        assert m < last ==> GivesEdge(paths, modules[..last][m], k, e);
      }
    }
  }

  lemma OnlyTells(inputs: seq<Input>, candidates: seq<Path>, k: nat)
    ensures OnlyFile(inputs, candidates, k) <==> FoundOnly(TableOf(inputs).Keys, candidates, k)
  {
    forall j | 0 <= j < |candidates|
      ensures IsFile(inputs, candidates[j]) <==> candidates[j] in TableOf(inputs).Keys
    {
      TableTells(inputs, candidates[j]);
    }
  }

  /** The edges of the table are the declarations that find one file. */
  lemma EdgesTell(inputs: seq<Input>, parent: Path, child: Path, testOnly: bool)
    ensures Edge(child, testOnly) in Targets(EdgesOf(TableOf(inputs)), parent) <==>
            DeclaresModule(inputs, parent, child, testOnly)
  {
    var table, e := TableOf(inputs), Edge(child, testOnly);
    TableTells(inputs, parent);
    if parent in table {
      var i := LastExists(inputs, parent);
      var modules := inputs[i].syntax.modules;
      ModuleEdgesTell(table.Keys, modules, e);
      assert Targets(EdgesOf(table), parent) == ModuleEdges(table.Keys, modules);
      if m: nat, k: nat :| m < |modules| && GivesEdge(table.Keys, modules[m], k, e) {
        OnlyTells(inputs, modules[m].candidates, k);
      }
      if n: nat, m: nat, k: nat :|
        LastAt(inputs, n, parent) && m < |inputs[n].syntax.modules| &&
        OnlyFile(inputs, inputs[n].syntax.modules[m].candidates, k) &&
        inputs[n].syntax.modules[m].candidates[k] == child && inputs[n].syntax.modules[m].testOnly == testOnly
      {
        OnlyTells(inputs, modules[m].candidates, k);
        assert GivesEdge(table.Keys, modules[m], k, e);
      }
    }
  }

  lemma ModulesTell(inputs: seq<Input>, child: Path)
    ensures child in IncomingOf(EdgesOf(TableOf(inputs))) <==> IsModule(inputs, child)
  {
    var edges := EdgesOf(TableOf(inputs));
    if child in IncomingOf(edges) {
      var p: Path, e: Edge :| p in edges && e in edges[p] && e.target == child;
      EdgesTell(inputs, p, child, e.testOnly);
    }
    if p, t :| DeclaresModule(inputs, p, child, t) {
      EdgesTell(inputs, p, child, t);
    }
  }

  lemma ShapeTells(inputs: seq<Input>, p: Path)
    ensures p in ShapeOf(TableOf(inputs)) <==> IsFile(inputs, p)
    ensures p in ShapeOf(TableOf(inputs)) ==> (ShapeOf(TableOf(inputs))[p] <==> IsTestFile(inputs, p))
  {
    TableTells(inputs, p);
    if IsFile(inputs, p) {
      var i := LastExists(inputs, p);
    }
  }

  /** The seeds of a file are its own: production where production starts, something where anything does. */
  lemma SeedsTell(inputs: seq<Input>, roots: RoleMap, p: Path)
    ensures var table := TableOf(inputs);
            var seeds := Seeds(table, roots, DeclaredIn(inputs));
            && (Fact(p, Production) in seeds <==> StartsProduction(inputs, roots, p))
            && ((exists b :: Fact(p, b) in seeds) <==> StartsAnything(inputs, roots, p))
  {
    var table, declared := TableOf(inputs), DeclaredIn(inputs);
    ShapeTells(inputs, p);
    DeclaredTells(inputs, p);
    ModulesTell(inputs, p);
    OwnSeeds(table, roots, declared, p);
    if p in table {
      RootSeeds(table, roots, declared, p);
    }
  }

  lemma OwnSeeds(files: Files, roots: RoleMap, declared: RoleMap, p: Path)
    ensures forall b :: Fact(p, b) in Seeds(files, roots, declared) <==>
                        p in files && Fact(p, b) in FileSeeds(files, roots, declared, p)
  {
  }

  /** What a file is seeded with, from its Cargo target, its classification and its declarations. */
  lemma RootSeeds(files: Files, roots: RoleMap, declared: RoleMap, p: Path)
    requires p in files
    ensures forall b :: Fact(p, b) in FileSeeds(files, roots, declared, p) <==>
              if files[p].syntax.fileTest then b == Test
              else if p in roots then b in roots[p]
              else if p in declared then b in declared[p]
              else b == Production && (p !in IncomingOf(EdgesOf(files)) || NamedAsRoot(p))
  {
  }

  // ---------- walks and chains ----------

  function PathsAlong(chain: seq<Fact>): (walk: seq<Path>)
    ensures |walk| == |chain| && forall i :: 0 <= i < |chain| ==> walk[i] == chain[i].path
  {
    seq(|chain|, i requires 0 <= i < |chain| => chain[i].path)
  }

  /** The files along a chain of facts declare each other, and the first has a role by itself. */
  lemma ChainIsWalk(inputs: seq<Input>, roots: RoleMap, chain: seq<Fact>)
    requires var table := TableOf(inputs);
             Chain(ShapeOf(table), EdgesOf(table), Seeds(table, roots, DeclaredIn(inputs)), chain)
    ensures ModuleWalk(inputs, PathsAlong(chain)) && StartsAnything(inputs, roots, chain[0].path)
  {
    var table, walk := TableOf(inputs), PathsAlong(chain);
    SeedsTell(inputs, roots, chain[0].path);
    assert Fact(chain[0].path, chain[0].bit) == chain[0];
    hide Seeds, StartsAnything;
    forall i | 0 < i < |walk|
      ensures IsFile(inputs, walk[i])
      ensures DeclaresModule(inputs, walk[i - 1], walk[i], false) || DeclaresModule(inputs, walk[i - 1], walk[i], true)
    {
      StepDeclares(inputs, chain[i - 1], chain[i]);
    }
    StartsAreFiles(inputs, roots, chain[0].path);
  }

  lemma StartsAreFiles(inputs: seq<Input>, roots: RoleMap, p: Path)
    requires StartsAnything(inputs, roots, p)
    ensures IsFile(inputs, p)
  {
  }

  lemma StepDeclares(inputs: seq<Input>, f: Fact, g: Fact)
    requires Step(ShapeOf(TableOf(inputs)), EdgesOf(TableOf(inputs)), f, g)
    ensures IsFile(inputs, g.path)
    ensures DeclaresModule(inputs, f.path, g.path, false) || DeclaresModule(inputs, f.path, g.path, true)
  {
    var edges := EdgesOf(TableOf(inputs));
    ShapeTells(inputs, g.path);
    var e: Edge :| e in Targets(edges, f.path) && e.target == g.path;
    EdgesTell(inputs, f.path, g.path, e.testOnly);
    assert e == Edge(g.path, e.testOnly);
  }

  /** A walk of declarations from a file that has a role by itself brings a role to its end. */
  lemma {:induction false} WalkIsChain(inputs: seq<Input>, roots: RoleMap, walk: seq<Path>) returns (b: Bit)
    requires ModuleWalk(inputs, walk) && StartsAnything(inputs, roots, walk[0])
    ensures var table := TableOf(inputs);
            Reaches(ShapeOf(table), EdgesOf(table), Seeds(table, roots, DeclaredIn(inputs)), Fact(walk[|walk| - 1], b))
  {
    var table, last := TableOf(inputs), |walk| - 1;
    var shape, edges, seeds := ShapeOf(table), EdgesOf(table), Seeds(table, roots, DeclaredIn(inputs));
    hide Seeds, StartsAnything, DeclaresModule;
    if last == 0 {
      SeedsTell(inputs, roots, walk[0]);
      b :| Fact(walk[0], b) in seeds;
      SeedReaches(shape, edges, seeds, Fact(walk[0], b));
    } else {
      var before := WalkIsChain(inputs, roots, walk[..last]);
      b := DeclarationSteps(inputs, walk[last - 1], walk[last], before);
      StepReaches(shape, edges, seeds, Fact(walk[last - 1], before), Fact(walk[last], b));
    }
  }

  lemma DeclarationSteps(inputs: seq<Input>, parent: Path, child: Path, before: Bit) returns (b: Bit)
    requires IsFile(inputs, parent) && IsFile(inputs, child)
    requires DeclaresModule(inputs, parent, child, false) || DeclaresModule(inputs, parent, child, true)
    ensures Step(ShapeOf(TableOf(inputs)), EdgesOf(TableOf(inputs)), Fact(parent, before), Fact(child, b))
  {
    var shape, edges := ShapeOf(TableOf(inputs)), EdgesOf(TableOf(inputs));
    ShapeTells(inputs, parent);
    ShapeTells(inputs, child);
    EdgesTell(inputs, parent, child, false);
    EdgesTell(inputs, parent, child, true);
    var e := Edge(child, !(Edge(child, false) in Targets(edges, parent)));
    b := Carried(shape[child], e, before);
  }

  /** What no seed reaches is what is left over. */
  lemma StrandedTells(inputs: seq<Input>, roots: RoleMap, p: Path)
    ensures p in Stranded(TableOf(inputs), roots, DeclaredIn(inputs)) <==> LeftOver(inputs, roots, p)
  {
    var table := TableOf(inputs);
    var shape, edges, seeds := ShapeOf(table), EdgesOf(table), Seeds(table, roots, DeclaredIn(inputs));
    TableTells(inputs, p);
    hide StartsAnything, Seeds;
    if p in table && p !in Stranded(table, roots, DeclaredIn(inputs)) {
      var b :| Reaches(shape, edges, seeds, Fact(p, b));
      var chain :| Chain(shape, edges, seeds, chain) && chain[|chain| - 1] == Fact(p, b);
      ChainIsWalk(inputs, roots, chain);
      var walk := PathsAlong(chain);
      assert ModuleWalk(inputs, walk) && walk[|walk| - 1] == p && StartsAnything(inputs, roots, walk[0]);
    }
    if walk :| ModuleWalk(inputs, walk) && walk[|walk| - 1] == p && StartsAnything(inputs, roots, walk[0]) {
      var b := WalkIsChain(inputs, roots, walk);
    }
  }

  /** Where production comes from. */
  lemma OriginsTell(inputs: seq<Input>, roots: RoleMap, p: Path)
    ensures p in ProductionOrigins(AllSeeds(TableOf(inputs), roots, DeclaredIn(inputs))) <==>
            StartsProduction(inputs, roots, p) || LeftOver(inputs, roots, p)
  {
    var table, declared := TableOf(inputs), DeclaredIn(inputs);
    SeedsTell(inputs, roots, p);
    StrandedTells(inputs, roots, p);
    hide Seeds, Stranded, StartsProduction, LeftOver, StartsAnything;
    var seeds := AllSeeds(table, roots, declared);
    if p in ProductionOrigins(seeds) {
      var f :| f in seeds && f.bit == Production && f.path == p;
      assert f == Fact(p, Production);
    }
    assert Fact(p, Production) in seeds ==> p in ProductionOrigins(seeds);
    assert p in Stranded(table, roots, declared) <==> Fact(p, Production) in StrandedFacts(table, roots, declared);
  }

  lemma LinkedTells(inputs: seq<Input>, roots: RoleMap, p: Path)
    ensures ProductionLinked(inputs, roots, p) <==> FromProduction(inputs, roots, p)
  {
    var table := TableOf(inputs);
    var shape, edges := ShapeOf(table), EdgesOf(table);
    var origins := ProductionOrigins(AllSeeds(table, roots, DeclaredIn(inputs)));
    hide AllSeeds, StartsProduction, LeftOver, DeclaresModule;
    forall walk: seq<Path> | walk != []
      ensures PlainChain(shape, edges, origins, walk) <==>
              PlainWalk(inputs, walk) &&
              (StartsProduction(inputs, roots, walk[0]) || LeftOver(inputs, roots, walk[0]))
    {
      OriginsTell(inputs, roots, walk[0]);
      WalkTells(inputs, walk);
    }
  }

  lemma WalkTells(inputs: seq<Input>, walk: seq<Path>)
    requires walk != []
    ensures PlainWalk(inputs, walk) <==>
            && (forall i :: 0 <= i < |walk| ==>
                walk[i] in ShapeOf(TableOf(inputs)) && !ShapeOf(TableOf(inputs))[walk[i]])
            && forall i :: 0 < i < |walk| ==> Edge(walk[i], false) in Targets(EdgesOf(TableOf(inputs)), walk[i - 1])
  {
    forall i | 0 <= i < |walk|
      ensures walk[i] in ShapeOf(TableOf(inputs)) && !ShapeOf(TableOf(inputs))[walk[i]] <==>
              IsFile(inputs, walk[i]) && !IsTestFile(inputs, walk[i])
    {
      ShapeTells(inputs, walk[i]);
    }
    forall i | 0 < i < |walk|
      ensures Edge(walk[i], false) in Targets(EdgesOf(TableOf(inputs)), walk[i - 1]) <==>
              DeclaresModule(inputs, walk[i - 1], walk[i], false)
    {
      EdgesTell(inputs, walk[i - 1], walk[i], false);
    }
  }

  lemma DoubtTells(inputs: seq<Input>, roots: RoleMap)
    ensures Untrusted(inputs, roots) <==> InDoubt(inputs, roots)
  {
    hide ProductionLinked, FromProduction;
    forall p ensures ProductionLinked(inputs, roots, p) <==> FromProduction(inputs, roots, p) {
      LinkedTells(inputs, roots, p);
    }
    forall p ensures p in TableOf(inputs) && TableOf(inputs)[p].syntax.uncertainModules <==>
                     exists i: nat :: LastAt(inputs, i, p) && inputs[i].syntax.uncertainModules {
      TableTells(inputs, p);
      if p in TableOf(inputs) {
        var i := LastExists(inputs, p);
      }
    }
  }

  // ---------- what the table means ----------

  /** A file of the settled table has the syntax and the fixed role of its last parsed input, and belongs
      to production exactly when it is no test file and the context is in doubt or production leads to it. */
  lemma ProductionExactly(inputs: seq<Input>, roots: RoleMap, files: Files, p: Path)
    requires Settled(inputs, roots, files)
    ensures p in files <==> IsFile(inputs, p)
    ensures forall i: nat :: LastAt(inputs, i, p) ==>
              files[p].syntax == inputs[i].syntax && files[p].explicit == inputs[i].explicit
    ensures p in files ==>
              (Production in files[p].reach <==>
               !IsTestFile(inputs, p) && (InDoubt(inputs, roots) || FromProduction(inputs, roots, p)))
  {
    TableTells(inputs, p);
    DoubtTells(inputs, roots);
    LinkedTells(inputs, roots, p);
    if p in files {
      var i := LastExists(inputs, p);
    }
  }

  /** The role of a source file, said of the inputs: it turns into test code exactly when no custom rule
      fixes it and it is a test file, or all is certain and production does not lead to it. */
  lemma RoleExactly(inputs: seq<Input>, roots: RoleMap, files: Files, file: ClassifiedFile)
    requires Settled(inputs, roots, files)
    ensures FileRoleIn(files, file) ==
            if file.role == Source &&
               exists i: nat :: LastAt(inputs, i, file.path) && !inputs[i].explicit &&
                                (inputs[i].syntax.fileTest ||
                                 (!InDoubt(inputs, roots) && !FromProduction(inputs, roots, file.path)))
            then TestRole else file.role
  {
    var p := file.path;
    ProductionExactly(inputs, roots, files, p);
    hide InDoubt, FromProduction;
    if p in files {
      var i := LastExists(inputs, p);
      assert IsTestFile(inputs, p) <==> inputs[i].syntax.fileTest;
      if file.role == Source {
        SourceBecomesTestExactly(files, file);
      }
    }
  }

  /** A plain source file that no declaration makes a module or a test, and that no Cargo target names,
      stays source whatever the rest of the inputs says. */
  lemma UndeclaredStaysSource(inputs: seq<Input>, roots: RoleMap, files: Files, p: Path)
    requires Settled(inputs, roots, files)
    requires IsFile(inputs, p) && !IsTestFile(inputs, p) && p !in roots
    requires !DeclaredTest(inputs, p) && (!IsModule(inputs, p) || NamedAsRoot(p))
    ensures FileRoleIn(files, ClassifiedFile(p, Source)) == Source
  {
    RoleExactly(inputs, roots, files, ClassifiedFile(p, Source));
    assert PlainWalk(inputs, [p]) && [p][|[p]| - 1] == p;
    assert FromProduction(inputs, roots, p);
  }

  /** The test ranges of a file are those of its last parsed input, and none where a custom rule classifies it. */
  lemma RangesTell(inputs: seq<Input>, roots: RoleMap, files: Files, p: Path, i: nat)
    requires Settled(inputs, roots, files)
    ensures LastAt(inputs, i, p) ==>
              RangesOf(files, p) == if inputs[i].explicit then [] else inputs[i].syntax.testRanges
    ensures !IsFile(inputs, p) ==> RangesOf(files, p) == []
  {
    ProductionExactly(inputs, roots, files, p);
    if IsFile(inputs, p) {
      var last := LastExists(inputs, p);
    }
  }
}
