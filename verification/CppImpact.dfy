/** Compositional C++ test selection (scripts/ci_select_tests.py). */
module CppImpact {
  import opened Reach
  import opened Results
  import opened IncludeGraph
  import opened RuntimeConsumers

  // ---- Manifest data ----

  datatype Suite = Suite(name: string, labels: set<string>, sources: set<FilePath>)

  /** The runtime part of src/CMakeLists.txt: owned sources, library dependencies, and the test targets that
      name each library directly. */
  datatype RuntimeManifest = RuntimeManifest(sources: map<Node, set<FilePath>>, dependencies: Graph, direct: Graph)

  /** Source owners and their transitive consumers. */
  datatype LibraryMap = LibraryMap(sources: map<Node, set<FilePath>>, consumers: Graph)

  datatype MapError = NoOwners | UnresolvedTargets

  method RuntimeObjectLibMap(manifest: RuntimeManifest) returns (r: Result<LibraryMap, MapError>)
    requires manifest.direct.Keys == manifest.dependencies.Keys
    requires manifest.sources.Keys <= manifest.dependencies.Keys
    ensures r == Err(NoOwners) <==> manifest.sources == map[]
    ensures r == Err(UnresolvedTargets) <==> manifest.sources != map[] && !Resolved(manifest.dependencies)
    ensures r.Ok? ==> MapOf(manifest, r.value)
  {
    if manifest.sources == map[] {
      return Err(NoOwners);
    }
    if exists a, b :: a in manifest.dependencies && b in manifest.dependencies[a] && b !in manifest.dependencies {
      return Err(UnresolvedTargets);
    }
    var consumers := TransitiveConsumers(manifest.dependencies, manifest.direct);
    var owned := map lib | lib in manifest.sources :: consumers[lib];
    return Ok(LibraryMap(manifest.sources, owned));
  }

  /** The consumers of an owner are the direct consumers of everything that reaches it. */
  ghost predicate MapOf(manifest: RuntimeManifest, libs: LibraryMap) {
    && libs.sources == manifest.sources
    && libs.consumers.Keys == manifest.sources.Keys
    && forall lib, target :: lib in libs.consumers ==>
         (target in libs.consumers[lib] <==> Consumes(manifest.dependencies, manifest.direct, lib, target))
  }

  // ---- Headers compiled into a suite ----

  ghost predicate SourceSees(repo: Repo, source: FilePath, n: Node) {
    InSourceClosure(repo, source, IsTestSource(source), n)
  }

  ghost predicate SomeSourceSees(repo: Repo, sources: set<FilePath>, n: Node) {
    exists source :: source in sources && SourceSees(repo, source, n)
  }

  ghost predicate LibrarySees(repo: Repo, libs: LibraryMap, lib: Node, n: Node) {
    lib in libs.sources && SomeSourceSees(repo, libs.sources[lib], n)
  }

  /** n is compiled through one of the suite's sources or through a runtime owner it consumes. */
  ghost predicate SuiteSees(repo: Repo, libs: LibraryMap, suite: Suite, n: Node) {
    || SomeSourceSees(repo, suite.sources, n)
    || exists lib :: lib in libs.consumers && suite.name in libs.consumers[lib] && LibrarySees(repo, libs, lib, n)
  }

  ghost predicate Readable(repo: Repo, sources: set<FilePath>) {
    forall source :: source in sources ==> SourceReadable(repo, source, IsTestSource(source))
  }

  method ClosureOfSources(repo: Repo, sources: set<FilePath>) returns (r: Result<set<Node>, GraphError>)
    ensures r.Err? <==> !Readable(repo, sources)
    ensures r.Ok? ==> forall n :: n in r.value <==> SomeSourceSees(repo, sources, n)
  {
    var nodes: set<Node> := {};
    var todo := sources;
    while todo != {}
      invariant todo <= sources && Readable(repo, sources - todo)
      invariant forall n :: n in nodes <==> SomeSourceSees(repo, sources - todo, n)
      decreases |todo|
    {
      var source :| source in todo;
      var closure := SourceClosure(repo, source);
      if closure.Err? {
        return Err(closure.error);
      }
      assert sources - (todo - {source}) == (sources - todo) + {source};
      SeesOneMore(repo, sources - todo, source);
      nodes := nodes + closure.value;
      todo := todo - {source};
    }
    assert sources - todo == sources;
    return Ok(nodes);
  }

  lemma SeesOneMore(repo: Repo, sources: set<FilePath>, source: FilePath)
    ensures forall n :: SomeSourceSees(repo, sources + {source}, n)
              <==> SomeSourceSees(repo, sources, n) || SourceSees(repo, source, n)
  {
    forall n
      ensures SomeSourceSees(repo, sources + {source}, n)
              <==> SomeSourceSees(repo, sources, n) || SourceSees(repo, source, n)
    {
      assert source in sources + {source};
    }
  }

  /** The header closure of every runtime owner. */
  method LibraryHeaders(repo: Repo, libs: LibraryMap) returns (r: Result<map<Node, set<Node>>, GraphError>)
    ensures r.Err? <==> exists lib :: lib in libs.sources && !Readable(repo, libs.sources[lib])
    ensures r.Ok? ==> r.value.Keys == libs.sources.Keys
    ensures r.Ok? ==> forall lib, n :: lib in r.value ==> (n in r.value[lib] <==> LibrarySees(repo, libs, lib, n))
  {
    var headers: map<Node, set<Node>> := map[];
    var todo := libs.sources.Keys;
    while todo != {}
      invariant todo <= libs.sources.Keys && headers.Keys == libs.sources.Keys - todo
      invariant forall lib :: lib in headers ==> Readable(repo, libs.sources[lib])
      invariant forall lib, n :: lib in headers ==> (n in headers[lib] <==> LibrarySees(repo, libs, lib, n))
      decreases |todo|
    {
      var lib :| lib in todo;
      var closure := ClosureOfSources(repo, libs.sources[lib]);
      if closure.Err? {
        return Err(closure.error);
      }
      headers := headers[lib := closure.value];
      todo := todo - {lib};
    }
    return Ok(headers);
  }

  /** The headers of the owners that a suite consumes. */
  method ConsumedHeaders(repo: Repo, libs: LibraryMap, headers: map<Node, set<Node>>, suite: Suite, own: set<Node>)
    returns (closure: set<Node>)
    requires libs.consumers.Keys == libs.sources.Keys == headers.Keys
    requires forall lib, n :: lib in headers ==> (n in headers[lib] <==> LibrarySees(repo, libs, lib, n))
    requires forall n :: n in own <==> SomeSourceSees(repo, suite.sources, n)
    ensures forall n :: n in closure <==> SuiteSees(repo, libs, suite, n)
  {
    closure := own;
    var todo := libs.consumers.Keys;
    while todo != {}
      invariant todo <= libs.consumers.Keys
      invariant forall n :: n in closure <==> n in own || exists lib ::
                    lib in libs.consumers.Keys - todo && suite.name in libs.consumers[lib] && n in headers[lib]
      decreases |todo|
    {
      var lib :| lib in todo;
      if suite.name in libs.consumers[lib] {
        closure := closure + headers[lib];
      }
      todo := todo - {lib};
    }
  }

  /** Later suites of the same name replace earlier ones. */
  ghost predicate LastOfName(suites: seq<Suite>, i: int) {
    0 <= i < |suites| && forall j :: i < j < |suites| ==> suites[j].name != suites[i].name
  }

  function Names(suites: seq<Suite>): set<string> {
    set s | s in suites :: s.name
  }

  ghost predicate ClosuresOf(repo: Repo, libs: LibraryMap, suites: seq<Suite>, closures: map<string, set<Node>>) {
    && closures.Keys == Names(suites)
    && forall i :: LastOfName(suites, i) ==> ClosureHolds(repo, libs, suites[i], closures)
  }

  ghost predicate ClosureHolds(repo: Repo, libs: LibraryMap, suite: Suite, closures: map<string, set<Node>>) {
    && suite.name in closures
    && forall n :: n in closures[suite.name] <==> SuiteSees(repo, libs, suite, n)
  }

  method CppSuiteIncludeClosures(repo: Repo, libs: LibraryMap, suites: seq<Suite>)
    returns (r: Result<map<string, set<Node>>, GraphError>)
    requires libs.consumers.Keys == libs.sources.Keys
    ensures r.Err? <==> (exists lib :: lib in libs.sources && !Readable(repo, libs.sources[lib]))
                        || exists i :: 0 <= i < |suites| && !Readable(repo, suites[i].sources)
    ensures r.Ok? ==> ClosuresOf(repo, libs, suites, r.value)
  {
    var headers := LibraryHeaders(repo, libs);
    if headers.Err? {
      return Err(headers.error);
    }
    var closures: map<string, set<Node>> := map[];
    assert suites[..0] == [];
    for i := 0 to |suites|
      invariant forall j :: 0 <= j < i ==> Readable(repo, suites[j].sources)
      invariant ClosuresOf(repo, libs, suites[..i], closures)
    {
      var own := ClosureOfSources(repo, suites[i].sources);
      if own.Err? {
        return Err(own.error);
      }
      var closure := ConsumedHeaders(repo, libs, headers.value, suites[i], own.value);
      ClosuresStep(repo, libs, suites, i, closures, closure);
      closures := closures[suites[i].name := closure];
    }
    assert suites[..|suites|] == suites;
    return Ok(closures);
  }

  lemma ClosuresStep(repo: Repo, libs: LibraryMap, suites: seq<Suite>, i: nat, closures: map<string, set<Node>>,
                     closure: set<Node>)
    requires i < |suites| && ClosuresOf(repo, libs, suites[..i], closures)
    requires forall n :: n in closure <==> SuiteSees(repo, libs, suites[i], n)
    ensures ClosuresOf(repo, libs, suites[..i + 1], closures[suites[i].name := closure])
  {
    var before, after := suites[..i], suites[..i + 1];
    assert after == before + [suites[i]];
    var next := closures[suites[i].name := closure];
    assert Names(after) == Names(before) + {suites[i].name};
    forall j | LastOfName(after, j)
      ensures ClosureHolds(repo, libs, after[j], next)
    {
      if j < i {
        StillLast(suites, i, j);
        assert ClosureHolds(repo, libs, before[j], closures);
      }
    }
  }

  lemma StillLast(suites: seq<Suite>, i: nat, j: nat)
    requires j < i < |suites| && LastOfName(suites[..i + 1], j)
    ensures LastOfName(suites[..i], j) && suites[i].name != suites[j].name
  {
    var before, after := suites[..i], suites[..i + 1];
    assert after[i] == suites[i] && after[j] == suites[j];
    forall k | j < k < i
      ensures before[k].name != before[j].name
    {
      assert after[k] == before[k];
    }
  }

  // ---- Paths ----

  predicate EndsWithAny(path: string, suffixes: seq<string>) {
    exists s :: s in suffixes && |s| <= |path| && path[|path| - |s|..] == s
  }

  /** The path is a stem and one of the suffixes. */
  lemma EndsExactly(path: string, suffixes: seq<string>)
    ensures EndsWithAny(path, suffixes) <==> exists stem, s :: s in suffixes && path == stem + s
  {
    if s :| s in suffixes && |s| <= |path| && path[|path| - |s|..] == s {
      assert path == path[..|path| - |s|] + s;
    }
    if stem: string, s :| s in suffixes && path == stem + s {
      assert |s| <= |path| && path[|path| - |s|..] == s;
    }
  }

  predicate StartsWithAny(path: string, prefixes: seq<string>) {
    exists p :: p in prefixes && p <= path
  }

  const HEADER_SUFFIXES := [".hpp", ".h", ".hh", ".hxx", ".inc", ".ipp", ".tpp"]
  const UNIT_SUFFIXES := [".cpp", ".hpp", ".h", ".hh", ".hxx"]
  const PRIVATE_HEADER_SUFFIXES := [".hpp", ".h", ".hh", ".hxx"]

  predicate IsCppHeader(path: string) {
    "include/pops/" <= path && EndsWithAny(path, HEADER_SUFFIXES)
  }

  predicate IsRuntimeUnit(path: string) {
    "src/runtime/" <= path && EndsWithAny(path, UNIT_SUFFIXES)
  }

  predicate IsBindingUnit(path: string) {
    "python/bindings/" <= path && EndsWithAny(path, UNIT_SUFFIXES)
  }

  function BindingAreas(path: string): set<string> {
    if "python/bindings/core/" <= path then {"runtime", "physics", "amr", "codegen"} else {}
  }

  const CODEGEN_AREAS: set<string> := {"codegen"}

  // ---- What the classifier knows ----

  /** Everything classify_cpp_impact and plan_cpp read besides the changed paths. Sources without an entry in
      sourceDependencies cannot be read; unreadableFirst says whether the set iteration over an owner's sources meets
      one of those before a source that includes the path. */
  datatype Facts = Facts(
    suites: seq<Suite>,
    mpiSources: set<FilePath>,
    headers: set<Node>,
    closures: Result<map<string, set<Node>>, GraphError>,
    emitterClosure: set<Node>,
    libs: Result<LibraryMap, MapError>,
    sourceDependencies: map<FilePath, set<FilePath>>,
    unreadableFirst: (Node, string) -> bool,
    labelAliases: map<string, set<string>>,
    broadFiles: set<string>,
    broadPrefixes: seq<string>,
    metaFiles: set<string>,
    metaPrefixes: seq<string>,
    zeroImpactFiles: set<string>,
    zeroImpactPrefixes: seq<string>,
    smokeTargets: set<string>)

  function AllTargets(facts: Facts): set<string> {
    Names(facts.suites)
  }

  function ExpandLabels(facts: Facts, areas: set<string>): set<string> {
    areas + set a, l | a in areas && a in facts.labelAliases && l in facts.labelAliases[a] :: l
  }

  function ByLabels(facts: Facts, areas: set<string>): (names: set<string>)
    ensures names <= AllTargets(facts)
  {
    var wanted := ExpandLabels(facts, areas);
    set s | s in facts.suites && s.labels * wanted != {} :: s.name
  }

  // ---- One file ----

  datatype Kind = FullSelection | IncludeImpact | RuntimeTargets | BindingLabels | TestTarget | CodegenLabels | NoImpact

  datatype Impact = Impact(kind: Kind, targets: set<string>, areas: set<string>)

  const FULL := Impact(FullSelection, {}, {})
  const NOTHING := Impact(NoImpact, {}, {})

  /** The suites whose recorded closure holds the header, and the generated-code suites if emitters include it. */
  function HeaderHits(facts: Facts, closures: map<string, set<Node>>, node: Node): (hits: set<string>)
    ensures hits <= AllTargets(facts)
  {
    (set s | s in facts.suites && s.name in closures && node in closures[s.name] :: s.name)
    + if node in facts.emitterClosure then ByLabels(facts, CODEGEN_AREAS) else {}
  }

  function ClassifyHeader(facts: Facts, path: string): (r: Impact)
    requires "include/" <= path
    ensures r.targets <= AllTargets(facts)
  {
    var node := path[|"include/"|..];
    if facts.closures.Err? || node !in facts.headers then FULL
    else
      var hits := HeaderHits(facts, facts.closures.value, node);
      if hits == {} then FULL else Impact(IncludeImpact, hits, {})
  }

  /** Some source of the list that can be read depends on the file. */
  predicate IncludedBy(facts: Facts, path: string, sources: set<FilePath>) {
    exists s :: s in sources && s in facts.sourceDependencies && path in facts.sourceDependencies[s]
  }

  /** The owner lists the file, or one of its sources depends on it as a private header. */
  predicate Belongs(facts: Facts, path: string, sources: set<FilePath>) {
    path in sources || (EndsWithAny(path, PRIVATE_HEADER_SUFFIXES) && IncludedBy(facts, path, sources))
  }

  /** The lookup of private headers fails: an unreadable source comes before every source that includes the file. */
  predicate OwnerUnreadable(facts: Facts, path: string, lib: Node, sources: set<FilePath>) {
    && path !in sources && EndsWithAny(path, PRIVATE_HEADER_SUFFIXES)
    && (exists s :: s in sources && s !in facts.sourceDependencies)
    && (IncludedBy(facts, path, sources) ==> facts.unreadableFirst(lib, path))
  }

  /** The runtime owners of a file. */
  function Owners(facts: Facts, libs: LibraryMap, path: string): set<Node> {
    set lib | lib in libs.sources && Belongs(facts, path, libs.sources[lib])
  }

  /** The test targets that consume one of these owners. */
  function ConsumersOf(facts: Facts, libs: LibraryMap, owners: set<Node>): set<string> {
    set lib, t | lib in owners && lib in libs.consumers && t in libs.consumers[lib] && t in AllTargets(facts) :: t
  }

  /** The runtime file is mapped to owners; otherwise it forces everything. */
  predicate RuntimeMapped(facts: Facts, path: string) {
    && IsRuntimeUnit(path) && facts.libs.Ok?
    && (forall lib :: lib in facts.libs.value.sources ==>
          !OwnerUnreadable(facts, path, lib, facts.libs.value.sources[lib]))
    && Owners(facts, facts.libs.value, path) != {}
  }

  function ClassifyRuntime(facts: Facts, path: string): (r: Impact)
    ensures r.targets <= AllTargets(facts)
  {
    if !RuntimeMapped(facts, path) then FULL
    else
      var libs := facts.libs.value;
      Impact(RuntimeTargets, ConsumersOf(facts, libs, Owners(facts, libs, path)), {})
  }

  function ClassifyTest(facts: Facts, path: string): (r: Impact)
    ensures r.targets <= AllTargets(facts)
  {
    var owners := set s | s in facts.suites && path in s.sources :: s.name;
    if owners != {} then Impact(TestTarget, owners, {})
    else if path in facts.mpiSources then NOTHING
    else FULL
  }

  function Classify(facts: Facts, path: string): (r: Impact)
    ensures r.targets <= AllTargets(facts)
  {
    if IsCppHeader(path) then
      assert "include/" <= path by {
        assert path[..|"include/pops/"|] == "include/pops/";
        assert path[..|"include/"|] == "include/pops/"[..|"include/"|] == "include/";
      }
      ClassifyHeader(facts, path)
    else if "src/runtime/" <= path then ClassifyRuntime(facts, path)
    else if "python/bindings/" <= path then
      if !IsBindingUnit(path) then FULL
      else Impact(BindingLabels, ByLabels(facts, BindingAreas(path)), BindingAreas(path))
    else if "tests/cpp/" <= path && EndsWithAny(path, [".cpp"]) then ClassifyTest(facts, path)
    else if "python/pops/codegen/" <= path then
      Impact(CodegenLabels, ByLabels(facts, CODEGEN_AREAS), CODEGEN_AREAS)
    else if path in facts.zeroImpactFiles || StartsWithAny(path, facts.zeroImpactPrefixes) then NOTHING
    else FULL
  }

  // ---- What one file selects ----

  /** A suite of the name carries one of the areas as a label, or a label that the area stands for. */
  ghost predicate Labelled(facts: Facts, areas: set<string>, name: string) {
    exists s, l, a :: s in facts.suites && s.name == name && l in s.labels && a in areas
                      && (l == a || (a in facts.labelAliases && l in facts.labelAliases[a]))
  }

  lemma ByLabelsExactly(facts: Facts, areas: set<string>, name: string)
    ensures name in ByLabels(facts, areas) <==> Labelled(facts, areas, name)
  {
    var wanted := ExpandLabels(facts, areas);
    if s :| s in facts.suites && s.labels * wanted != {} && s.name == name {
      var l :| l in s.labels * wanted;
      assert l in s.labels && l in wanted;
    }
    if s, l, a :| s in facts.suites && s.name == name && l in s.labels && a in areas
                  && (l == a || (a in facts.labelAliases && l in facts.labelAliases[a])) {
      assert l in s.labels * wanted;
    }
  }

  /** A header that the graph does not know, or that cannot be looked up or hits no suite, forces; any other one goes to
      the suites whose recorded closure holds it and, if an emitter includes it, to those labelled for codegen. */
  lemma HeaderImpact(facts: Facts, node: Node, name: string)
    requires "include/pops/" <= "include/" + node
    requires EndsWithAny("include/" + node, [".hpp", ".h", ".hh", ".hxx", ".inc", ".ipp", ".tpp"])
    ensures var found := Classify(facts, "include/" + node);
            && (found.kind == FullSelection
                <==> facts.closures.Err? || node !in facts.headers || forall other :: !HeaderHit(facts, node, other))
            && found.kind in {FullSelection, IncludeImpact}
            && (found.kind == IncludeImpact ==> (name in found.targets <==> HeaderHit(facts, node, name)))
  {
    var path := "include/" + node;
    assert path[|"include/"|..] == node;
    if facts.closures.Ok? {
      forall other
        ensures other in HeaderHits(facts, facts.closures.value, node) <==> HeaderHit(facts, node, other)
      {
        ByLabelsExactly(facts, CODEGEN_AREAS, other);
      }
    }
  }

  ghost predicate HeaderHit(facts: Facts, node: Node, name: string) {
    && facts.closures.Ok?
    && (|| (name in Names(facts.suites) && name in facts.closures.value && node in facts.closures.value[name])
        || (node in facts.emitterClosure && Labelled(facts, {"codegen"}, name)))
  }

  /** A C++ test goes to the suites that list it; a test of the MPI suites goes nowhere, an unlisted one everywhere. */
  lemma TestImpact(facts: Facts, path: string, name: string)
    requires "tests/cpp/" <= path && EndsWithAny(path, [".cpp"])
    ensures var found := Classify(facts, path);
            && (name in found.targets <==> exists s :: s in facts.suites && s.name == name && path in s.sources)
            && found.kind == if exists s :: s in facts.suites && path in s.sources then TestTarget
                             else if path in facts.mpiSources then NoImpact else FullSelection
  {
    assert path[0] == 't';
    assert "include/pops/"[0] == 'i' && "src/runtime/"[0] == 's' && "python/bindings/"[0] == 'p';
    if s :| s in facts.suites && path in s.sources {
      assert s.name in Classify(facts, path).targets;
    }
  }

  lemma BindingRule(facts: Facts, path: string)
    requires "python/bindings/" <= path
    ensures Classify(facts, path) == if !IsBindingUnit(path) then FULL
                                     else Impact(BindingLabels, ByLabels(facts, BindingAreas(path)), BindingAreas(path))
  {
    NotHeaderNorRuntime(path);
  }

  lemma NotHeaderNorRuntime(path: string)
    requires path != "" && path[0] == 'p'
    ensures !IsCppHeader(path) && !("src/runtime/" <= path)
  {
    assert "include/pops/"[0] == 'i' && "src/runtime/"[0] == 's';
  }

  /** A binding unit goes to the suites of its areas, which only the core ones have; any other file there forces. */
  lemma BindingImpact(facts: Facts, path: string, name: string)
    requires "python/bindings/" <= path
    ensures !EndsWithAny(path, [".cpp", ".hpp", ".h", ".hh", ".hxx"]) ==>
              Classify(facts, path) == Impact(FullSelection, {}, {})
    ensures EndsWithAny(path, [".cpp", ".hpp", ".h", ".hh", ".hxx"]) ==>
              && Classify(facts, path).kind == BindingLabels
              && (name in Classify(facts, path).targets <==>
                    "python/bindings/core/" <= path && Labelled(facts, {"runtime", "physics", "amr", "codegen"}, name))
  {
    BindingRule(facts, path);
    ByLabelsExactly(facts, BindingAreas(path), name);
  }

  lemma CodegenImpact(facts: Facts, path: string, name: string)
    requires "python/pops/codegen/" <= path
    ensures Classify(facts, path).kind == CodegenLabels
    ensures name in Classify(facts, path).targets <==> Labelled(facts, {"codegen"}, name)
  {
    assert path[0] == 'p' && path[7] == 'p' && "python/bindings/"[7] == 'b';
    assert "include/pops/"[0] == 'i' && "src/runtime/"[0] == 's' && "tests/cpp/"[0] == 't';
    ByLabelsExactly(facts, CODEGEN_AREAS, name);
  }

  /** A file that no other rule knows has no impact if a zero-impact table names it, and forces otherwise. */
  lemma UnknownImpact(facts: Facts, path: string)
    requires !("include/pops/" <= path && EndsWithAny(path, [".hpp", ".h", ".hh", ".hxx", ".inc", ".ipp", ".tpp"]))
    requires !("src/runtime/" <= path) && !("python/bindings/" <= path) && !("python/pops/codegen/" <= path)
    requires !("tests/cpp/" <= path && EndsWithAny(path, [".cpp"]))
    ensures Classify(facts, path)
            == if path in facts.zeroImpactFiles || exists q :: q in facts.zeroImpactPrefixes && q <= path
               then Impact(NoImpact, {}, {}) else Impact(FullSelection, {}, {})
  {}

  // ---- A change list ----

  function Selected(facts: Facts, changed: seq<string>): set<string> {
    set p, t | p in changed && t in Classify(facts, p).targets :: t
  }

  function Areas(facts: Facts, changed: seq<string>): set<string> {
    set p, a | p in changed && a in Classify(facts, p).areas :: a
  }

  /** The paths that force a full selection, in order. */
  function Forcing(facts: Facts, changed: seq<string>): seq<string> {
    Gather(ForcesOf(facts), changed)
  }

  function Gather(f: string -> seq<string>, s: seq<string>): seq<string> {
    if s == [] then [] else f(s[0]) + Gather(f, s[1..])
  }

  function ForcesOf(facts: Facts): string -> seq<string> {
    path => Forces(facts, path)
  }

  function Forces(facts: Facts, path: string): seq<string> {
    if Classify(facts, path).kind == FullSelection then [path] else []
  }

  function ImpactOf(facts: Facts, changed: seq<string>): map<string, Impact> {
    map p | p in changed :: Classify(facts, p)
  }

  lemma {:induction false} GatherAppend(f: string -> seq<string>, a: seq<string>, b: seq<string>)
    ensures Gather(f, a + b) == Gather(f, a) + Gather(f, b)
  {
    if a == [] {
      assert a + b == b;
    } else {
      assert (a + b)[1..] == a[1..] + b;
      GatherAppend(f, a[1..], b);
    }
  }

  /** One more changed file. */
  lemma ClassifiedStep(facts: Facts, changed: seq<string>, i: nat)
    requires i < |changed|
    ensures Selected(facts, changed[..i + 1]) == Selected(facts, changed[..i]) + Classify(facts, changed[i]).targets
    ensures Areas(facts, changed[..i + 1]) == Areas(facts, changed[..i]) + Classify(facts, changed[i]).areas
    ensures ImpactOf(facts, changed[..i + 1]) == ImpactOf(facts, changed[..i])[changed[i] := Classify(facts, changed[i])]
    ensures Forcing(facts, changed[..i + 1]) == Forcing(facts, changed[..i]) + Forces(facts, changed[i])
  {
    var path := changed[i];
    assert changed[..i + 1] == changed[..i] + [path];
    SingleFile(facts, path);
    ClassifiedAppend(facts, changed[..i], [path]);
  }

  lemma SingleFile(facts: Facts, path: string)
    ensures Selected(facts, [path]) == Classify(facts, path).targets
    ensures Areas(facts, [path]) == Classify(facts, path).areas
    ensures ImpactOf(facts, [path]) == map[path := Classify(facts, path)]
    ensures Forcing(facts, [path]) == Forces(facts, path)
  {
    assert forall p :: p in [path] <==> p == path;
    assert [path][1..] == [];
    assert Gather(ForcesOf(facts), []) == [];
  }

  method ClassifyCppImpact(facts: Facts, changed: seq<string>)
    returns (selected: set<string>, forcing: seq<string>, areas: set<string>, impact: map<string, Impact>)
    ensures selected == Selected(facts, changed) && areas == Areas(facts, changed)
    ensures forcing == Forcing(facts, changed) && impact == ImpactOf(facts, changed)
  {
    selected, forcing, areas, impact := {}, [], {}, map[];
    for i := 0 to |changed|
      invariant selected == Selected(facts, changed[..i]) && areas == Areas(facts, changed[..i])
      invariant forcing == Forcing(facts, changed[..i]) && impact == ImpactOf(facts, changed[..i])
    {
      var path := changed[i];
      ClassifiedStep(facts, changed, i);
      var found := Classify(facts, path);
      selected := selected + found.targets;
      areas := areas + found.areas;
      impact := impact[path := found];
      if found.kind == FullSelection {
        forcing := forcing + [path];
      }
    }
    assert changed[..|changed|] == changed;
  }

  /** The classification of a concatenation is the union of the classifications of its parts. */
  lemma ClassifiedAppend(facts: Facts, a: seq<string>, b: seq<string>)
    ensures Selected(facts, a + b) == Selected(facts, a) + Selected(facts, b)
    ensures Areas(facts, a + b) == Areas(facts, a) + Areas(facts, b)
    ensures Forcing(facts, a + b) == Forcing(facts, a) + Forcing(facts, b)
    ensures ImpactOf(facts, a + b) == ImpactOf(facts, a) + ImpactOf(facts, b)
  {
    assert forall p :: p in a + b <==> p in a || p in b;
    GatherAppend(ForcesOf(facts), a, b);
  }
}
