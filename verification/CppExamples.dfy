/** The path tables of scripts/ci_select_tests.py, and checkouts on which its C++ plan is surprising. */
module CppExamples {
  import opened Reach
  import opened Results
  import opened IncludeGraph
  import opened RuntimeConsumers
  import opened CppImpact
  import opened CppPlan

  // ---- The tables ----

  const BROAD_FILES := {
    ".github/workflows/ci.yml", "CMakeLists.txt", "CMakePresets.json", "scripts/ci_include_graph.py",
    "scripts/ci_python_module_objects.py", "scripts/ci_route_mode.py", "scripts/ci_plan.py",
    "scripts/ci_components.toml", "scripts/ci_select_tests.py", "scripts/ci_shard_binpack.py", "tests/CMakeLists.txt",
    "tests/cpp/build_durations.json", "tests/cpp/test_durations.json", "src/CMakeLists.txt",
    "tests/cpp/test_sources.cmake", "tests/test_manifest.toml"}

  const BROAD_PREFIXES := [
    ".github/actions/setup-kokkos/", "cmake/", "include/pops/core/", "include/pops/parallel/", "tests/cpp/support/"]

  const META_FILES := {"README.md", "CONTRIBUTING.md", "CHANGELOG.md", "SECURITY.md", ".gitignore"}

  const META_PREFIXES := [".github/", "docs/", "tutorials/", "tests/python/architecture/"]

  const ZERO_IMPACT_PREFIXES := ["docs/", "tutorials/", "tests/python/", "python/pops/"]

  const SMOKE_TARGETS := {"test_box", "test_reduce", "test_system_abstraction"}

  function LabelAliases(): map<string, set<string>> {
    map["amr" := {"amr", "mesh", "compliance"},
        "bindings" := {"bindings", "runtime", "native_loader"},
        "boundary" := {"boundary", "mesh", "numerics"},
        "codegen" := {"codegen", "native_loader", "compiler", "bindings"},
        "coupling" := {"coupling", "runtime", "elliptic", "amr", "physics"},
        "domain" := {"domain", "mesh", "problem"},
        "elliptic" := {"elliptic", "solvers", "compliance"},
        "examples" := {"examples", "runtime", "io", "time", "amr", "physics"},
        "fields" := {"fields", "physics", "elliptic", "runtime"},
        "io" := {"io", "runtime"},
        "identity" := {"identity", "codegen", "runtime"},
        "initial" := {"initial", "problem", "runtime"},
        "mesh" := {"mesh", "amr"},
        "moments" := {"moments", "physics", "numerics"},
        "native_loader" := {"native_loader", "codegen", "compiler"},
        "numerics" := {"numerics", "elliptic", "solvers", "time"},
        "output" := {"output", "io", "runtime"},
        "physics" := {"physics", "numerics", "compliance"},
        "problem" := {"problem", "runtime"},
        "reporting" := {"reporting", "descriptors", "problem", "runtime"},
        "runtime" := {"runtime", "bindings", "native_loader", "compliance"},
        "solvers" := {"solvers", "elliptic"},
        "time" := {"time", "numerics", "solvers"},
        "validation" := {"validation", "physics", "runtime"}]
  }

  /** A selector with the repository's tables over the given suites, headers and closures. */
  function TabledFacts(suites: seq<Suite>, headers: set<Node>, closures: map<string, set<Node>>): Facts {
    Facts(suites, {}, headers, Ok(closures), {}, Err(NoOwners), map[], (lib, path) => false, LabelAliases(),
          BROAD_FILES, BROAD_PREFIXES, META_FILES, META_PREFIXES, META_FILES, ZERO_IMPACT_PREFIXES, SMOKE_TARGETS)
  }

  // ---- A plan that shrinks ----

  /** A recognised file that selects nothing falls back to every target. */
  lemma SilentFileFallsBack(facts: Facts, silent: string)
    requires !Broad(facts, [silent]) && !OnlyMeta(facts, [silent])
    requires Classify(facts, silent).targets == {} && Classify(facts, silent).kind != NoImpact
    ensures PlanOf(facts, [silent], false).targets == AllTargets(facts)
  {
    forall name | name in AllTargets(facts)
      ensures name in PlanOf(facts, [silent], false).targets
    {
      LoneFileExactly(facts, silent, name);
    }
    PlanWithin(facts, [silent], false);
  }

  /** With an edited test beside it only that test and the smoke targets remain. */
  lemma SilentFileWithTest(facts: Facts, silent: string, test: string, name: string)
    requires !Broad(facts, [silent]) && !Broad(facts, [test])
    requires Classify(facts, silent) == Impact(BindingLabels, {}, {})
    requires Classify(facts, test) == Impact(TestTarget, {name}, {})
    ensures PlanOf(facts, [silent] + [test], false).targets == {name} + facts.smokeTargets * AllTargets(facts)
  {
    SingleFile(facts, silent);
    SingleFile(facts, test);
    ClassifiedAppend(facts, [silent], [test]);
    NeitherForces(facts, silent, test);
    assert silent in [silent] + [test];
  }

  lemma NeitherForces(facts: Facts, a: string, b: string)
    requires !Broad(facts, [a]) && !Broad(facts, [b])
    requires Forcing(facts, [a] + [b]) == []
    ensures !Forced(facts, [a] + [b], false)
  {
    assert a in [a] && b in [b];
    assert forall p :: p in [a] + [b] ==> p == a || p == b;
  }

  const ADAPTER := "python/bindings/module.cpp"
  const AMR_TEST := "tests/cpp/amr/test_amr.cpp"

  function ThreeSuites(): seq<Suite> {
    [Suite("test_box", {"mesh"}, {"tests/cpp/mesh/test_box.cpp"}), Suite("test_amr", {"amr"}, {AMR_TEST}),
     Suite("test_flux", {"numerics"}, {"tests/cpp/numerics/test_flux.cpp"})]
  }

  function ThreeFacts(): Facts {
    TabledFacts(ThreeSuites(), {}, map[])
  }

  /** An adapter outside python/bindings/core/ belongs to no area, whatever the suites and tables. */
  lemma AdapterIsSilent(facts: Facts)
    ensures Classify(facts, ADAPTER) == Impact(BindingLabels, {}, {})
  {
    var path := ADAPTER;
    assert path[0] == 'p' && "include/pops/"[0] == 'i' && "src/runtime/"[0] == 's';
    assert path[..|"python/bindings/"|] == "python/bindings/";
    assert path[|path| - |".cpp"|..] == ".cpp" && ".cpp" in UNIT_SUFFIXES;
    assert path[16] != "python/bindings/core/"[16];
    assert BindingAreas(path) == {};
    assert ByLabels(facts, {}) == {};
  }

  /** Editing a C++ test goes to the suites that own it. */
  lemma TestPath(facts: Facts, path: string)
    requires "tests/cpp/" <= path && EndsWithAny(path, [".cpp"])
    ensures Classify(facts, path) == ClassifyTest(facts, path)
  {
    assert path[0] == 't';
    assert "include/pops/"[0] == 'i' && "src/runtime/"[0] == 's' && "python/bindings/"[0] == 'p';
  }

  lemma AmrTestIsTest()
    ensures "tests/cpp/" <= AMR_TEST && EndsWithAny(AMR_TEST, [".cpp"])
  {
    assert AMR_TEST[..|"tests/cpp/"|] == "tests/cpp/";
    assert AMR_TEST[|AMR_TEST| - |".cpp"|..] == ".cpp" && ".cpp" in [".cpp"];
  }

  lemma AmrTestIsOwned(facts: Facts)
    requires facts.suites == ThreeSuites()
    ensures ClassifyTest(facts, AMR_TEST) == Impact(TestTarget, {"test_amr"}, {})
  {
    assert AMR_TEST[10] != "tests/cpp/mesh/test_box.cpp"[10] && AMR_TEST[10] != "tests/cpp/numerics/test_flux.cpp"[10];
    var owners := set s | s in facts.suites && AMR_TEST in s.sources :: s.name;
    assert facts.suites[1] in facts.suites;
    assert owners == {"test_amr"};
  }

  lemma ThreeTargets(facts: Facts)
    requires facts.suites == ThreeSuites()
    ensures AllTargets(facts) == {"test_box", "test_amr", "test_flux"}
  {
    var suites := facts.suites;
    assert suites[0] in suites && suites[1] in suites && suites[2] in suites;
  }

  /** The path is neither one of the files nor below one of the prefixes. */
  ghost predicate Avoids(path: string, files: set<string>, prefixes: seq<string>) {
    path !in files && !StartsWithAny(path, prefixes)
  }

  lemma BroadFilesStart(f: string)
    requires f in BROAD_FILES
    ensures 0 < |f| && f[0] != 'p' && f[0] != 'i' && (f[0] == 't' ==> |f| < 11 || f[10] != 'a')
    ensures f[0] == 's' && 4 < |f| ==> f[4] != 'r'
  {}

  lemma BroadPrefixesStart(f: string)
    requires f in BROAD_PREFIXES
    ensures 6 <= |f| && f[0] != 'p' && f[0] != 's' && (f[0] == 't' ==> 11 <= |f| && f[10] != 'a')
    ensures f[0] == 'i' ==> 14 <= |f| && f[13] != 'm'
  {}

  lemma MetaFilesStart(f: string)
    requires f in META_FILES
    ensures 0 < |f| && f[0] != 'p' && f[0] != 's'
  {}

  lemma MetaPrefixesStart(f: string)
    requires f in META_PREFIXES
    ensures 0 < |f| && f[0] != 'p' && f[0] != 's'
  {}

  lemma AdapterAvoidsTables(path: string)
    requires 0 < |path| && path[0] == 'p'
    ensures Avoids(path, BROAD_FILES, BROAD_PREFIXES) && Avoids(path, META_FILES, META_PREFIXES)
  {
    if path in BROAD_FILES { BroadFilesStart(path); }
    if path in META_FILES { MetaFilesStart(path); }
    if f :| f in BROAD_PREFIXES && f <= path { BroadPrefixesStart(f); }
    if f :| f in META_PREFIXES && f <= path { MetaPrefixesStart(f); }
  }

  lemma AmrTestAvoidsTables(path: string)
    requires 10 < |path| && path[0] == 't' && path[10] == 'a'
    ensures Avoids(path, BROAD_FILES, BROAD_PREFIXES)
  {
    if path in BROAD_FILES { BroadFilesStart(path); }
    if f :| f in BROAD_PREFIXES && f <= path { BroadPrefixesStart(f); }
  }

  lemma AdapterAlone(facts: Facts, adapter: string)
    requires adapter == ADAPTER && facts.suites == ThreeSuites()
    requires Avoids(adapter, facts.broadFiles, facts.broadPrefixes) && Avoids(adapter, facts.metaFiles, facts.metaPrefixes)
    ensures PlanOf(facts, [adapter], false).targets == {"test_box", "test_amr", "test_flux"}
  {
    AdapterIsSilent(facts);
    ThreeTargets(facts);
    assert adapter in [adapter];
    SilentFileFallsBack(facts, adapter);
  }

  lemma SmokeOfThree()
    ensures SMOKE_TARGETS * {"test_box", "test_amr", "test_flux"} == {"test_box"}
  {}

  /** The plan of the test edit beside the adapter, over any selector with these suites whose tables say nothing of the
      two paths. */
  lemma TestBesideAdapter(facts: Facts, adapter: string, test: string)
    requires adapter == ADAPTER && test == AMR_TEST
    requires facts.suites == ThreeSuites() && facts.smokeTargets == SMOKE_TARGETS
    requires Avoids(adapter, facts.broadFiles, facts.broadPrefixes) && Avoids(test, facts.broadFiles, facts.broadPrefixes)
    ensures PlanOf(facts, [adapter] + [test], false).targets == {"test_box", "test_amr"}
  {
    AdapterIsSilent(facts);
    AmrTestIsTest();
    TestPath(facts, test);
    AmrTestIsOwned(facts);
    ThreeTargets(facts);
    SilentFileWithTest(facts, adapter, test, "test_amr");
    SmokeOfThree();
  }

  /** A new pybind adapter alone runs every suite; with an edited test beside it only that test and the smoke target
      run, although the adapter is still part of the change. */
  lemma PlanCanShrink()
    ensures PlanOf(ThreeFacts(), [ADAPTER], false).targets == {"test_box", "test_amr", "test_flux"}
    ensures PlanOf(ThreeFacts(), [ADAPTER, AMR_TEST], false).targets == {"test_box", "test_amr"}
  {
    AdapterAvoidsTables(ADAPTER);
    AmrTestAvoidsTables(AMR_TEST);
    AdapterAlone(ThreeFacts(), ADAPTER);
    TestBesideAdapter(ThreeFacts(), ADAPTER, AMR_TEST);
    assert [ADAPTER] + [AMR_TEST] == [ADAPTER, AMR_TEST];
  }

  // ---- A suite shadowed by a later namesake ----

  const HEADER := "pops/mesh/h.hpp"
  const HEADER_FILE := "include/pops/mesh/h.hpp"

  /** One flux suite includes the header, a later one of the same name does not, and another suite does. */
  function ShadowSuites(): seq<Suite> {
    [Suite("test_flux", {}, {"tests/cpp/a.cpp"}), Suite("test_flux", {}, {"tests/cpp/b.cpp"}),
     Suite("test_amr", {}, {"tests/cpp/c.cpp"})]
  }

  function ShadowRepo(): Repo {
    Repo(map["tests/cpp/a.cpp" := SourceText({HEADER}, {}), "tests/cpp/b.cpp" := SourceText({}, {}),
             "tests/cpp/c.cpp" := SourceText({HEADER}, {}), HEADER_FILE := SourceText({}, {})],
         {}, {"tests/cpp/a.cpp", "tests/cpp/b.cpp", "tests/cpp/c.cpp", HEADER_FILE},
         n => INCLUDE_PREFIX + n, (p, q) => "elsewhere", q => "elsewhere")
  }

  /** One runtime library that no suite links. */
  function ShadowManifest(): RuntimeManifest {
    RuntimeManifest(map["pops_runtime_system" := {"src/runtime/system.cpp"}], map["pops_runtime_system" := {}],
                    map["pops_runtime_system" := {}])
  }

  function ShadowLibraries(): LibraryMap {
    LibraryMap(ShadowManifest().sources, map["pops_runtime_system" := {}])
  }

  function ShadowClosures(): map<string, set<Node>> {
    map["test_flux" := {}, "test_amr" := {HEADER}]
  }

  lemma NobodyLinks()
    ensures MapOf(ShadowManifest(), ShadowLibraries())
  {}

  lemma SeesHeader(source: FilePath)
    requires source in {"tests/cpp/a.cpp", "tests/cpp/c.cpp"}
    ensures SourceSees(ShadowRepo(), source, HEADER)
  {
    assert HEADER[..|"pops/"|] == "pops/";
    assert INCLUDE_PREFIX + HEADER == HEADER_FILE;
    DirectHeader(ShadowRepo(), source, IsTestSource(source), HEADER);
  }

  /** A file with angle includes only depends on what those resolve to. */
  lemma PlainDependencies(repo: Repo, isTest: bool, path: FilePath)
    requires path in repo.files && repo.files[path].quoted == {}
    ensures forall p :: p in Next(DependencyGraph(repo, isTest), path) <==>
              exists n :: n in repo.files[path].nodes && repo.header(n) == p
  {}

  lemma ReachesOnly(g: Graph, a: Node, b: Node, c: Node)
    requires Next(g, a) <= {b} && Next(g, b) == {} && Reaches(g, a, c)
    ensures c == a || (c == b && b in Next(g, a))
  {
    ClosedHolds(g, {a} + Next(g, a), a, c);
  }

  lemma ShadowFiles()
    ensures var repo := ShadowRepo();
            && "tests/cpp/b.cpp" in repo.files && repo.files["tests/cpp/b.cpp"] == SourceText({}, {})
            && "tests/cpp/c.cpp" in repo.files && repo.files["tests/cpp/c.cpp"] == SourceText({HEADER}, {})
            && HEADER_FILE in repo.files && repo.files[HEADER_FILE] == SourceText({}, {})
            && repo.header(HEADER) == HEADER_FILE
  {
    assert HEADER_FILE[0] != "tests/cpp/a.cpp"[0];
    assert "tests/cpp/a.cpp"[10] == 'a' && "tests/cpp/b.cpp"[10] == 'b' && "tests/cpp/c.cpp"[10] == 'c';
    assert INCLUDE_PREFIX + HEADER == HEADER_FILE;
  }

  /** A test source without includes reaches no public header, one with a single header only that one. */
  lemma SeesOnly(repo: Repo, source: FilePath, isTest: bool, h: Node, n: Node)
    requires source in repo.files && repo.files[source].quoted == {} && repo.files[source].nodes <= {h}
    requires repo.header(h) == INCLUDE_PREFIX + h && INCLUDE_PREFIX + h in repo.files
    requires repo.files[INCLUDE_PREFIX + h] == SourceText({}, {}) && source != "" && source[0] == 't'
    requires InSourceClosure(repo, source, isTest, n)
    ensures n == h && h in repo.files[source].nodes
  {
    var g, path := DependencyGraph(repo, isTest), INCLUDE_PREFIX + n;
    PlainDependencies(repo, isTest, source);
    PlainDependencies(repo, isTest, INCLUDE_PREFIX + h);
    ReachesOnly(g, source, INCLUDE_PREFIX + h, path);
    assert path[0] == 'i';
    assert path[|INCLUDE_PREFIX|..] == n && (INCLUDE_PREFIX + h)[|INCLUDE_PREFIX|..] == h;
  }

  /** The closures recorded under the two names. */
  lemma ShadowClosuresRecorded()
    ensures ClosuresOf(ShadowRepo(), ShadowLibraries(), ShadowSuites(), ShadowClosures())
  {
    var repo, libs, suites := ShadowRepo(), ShadowLibraries(), ShadowSuites();
    assert "test_flux"[5] != "test_amr"[5];
    assert Names(suites) == {"test_flux", "test_amr"} by {
      assert suites[0] in suites && suites[2] in suites;
    }
    forall n
      ensures !SuiteSees(repo, libs, suites[1], n)
      ensures SuiteSees(repo, libs, suites[2], n) <==> n == HEADER
    {
      ShadowSees(n);
    }
    assert !LastOfName(suites, 0) by {
      assert suites[1].name == suites[0].name;
    }
  }

  lemma ShadowSees(n: Node)
    ensures !SuiteSees(ShadowRepo(), ShadowLibraries(), ShadowSuites()[1], n)
    ensures SuiteSees(ShadowRepo(), ShadowLibraries(), ShadowSuites()[2], n) <==> n == HEADER
  {
    SeesNothing(ShadowRepo(), n);
    SeesOneHeader(ShadowRepo(), n);
  }

  lemma SeesNothing(repo: Repo, n: Node)
    requires repo == ShadowRepo()
    ensures !SourceSees(repo, "tests/cpp/b.cpp", n)
  {
    ShadowFiles();
    assert INCLUDE_PREFIX + HEADER == HEADER_FILE;
    if SourceSees(repo, "tests/cpp/b.cpp", n) {
      SeesOnly(repo, "tests/cpp/b.cpp", IsTestSource("tests/cpp/b.cpp"), HEADER, n);
    }
  }

  lemma SeesOneHeader(repo: Repo, n: Node)
    requires repo == ShadowRepo()
    ensures SourceSees(repo, "tests/cpp/c.cpp", n) <==> n == HEADER
  {
    ShadowFiles();
    SeesHeader("tests/cpp/c.cpp");
    assert INCLUDE_PREFIX + HEADER == HEADER_FILE;
    if SourceSees(repo, "tests/cpp/c.cpp", n) {
      SeesOnly(repo, "tests/cpp/c.cpp", IsTestSource("tests/cpp/c.cpp"), HEADER, n);
    }
  }

  lemma HeaderIsPlain()
    ensures IsCppHeader(HEADER_FILE) && Avoids(HEADER_FILE, BROAD_FILES, BROAD_PREFIXES)
  {
    var path := HEADER_FILE;
    assert path[..|"include/pops/"|] == "include/pops/";
    assert path[|path| - |".hpp"|..] == ".hpp" && ".hpp" in HEADER_SUFFIXES;
    assert path[0] == 'i' && path[13] == 'm';
    if path in BROAD_FILES { BroadFilesStart(path); }
    if f :| f in BROAD_PREFIXES && f <= path { BroadPrefixesStart(f); }
  }

  /** The selector of this checkout. */
  function ShadowFacts(): Facts {
    TabledFacts(ShadowSuites(), {HEADER}, ShadowClosures())
  }

  /** The first flux suite compiles the changed header, and yet the plan runs test_amr alone: the closure recorded for
      test_flux is that of its later namesake. */
  lemma ShadowedSuiteIsLost()
    ensures ReadFrom(ShadowFacts(), ShadowRepo(), ShadowManifest())
    ensures Compiles(ShadowRepo(), ShadowManifest(), ShadowSuites()[0], HEADER)
    ensures "test_flux" !in PlanOf(ShadowFacts(), [HEADER_FILE], false).targets
    ensures "test_amr" in PlanOf(ShadowFacts(), [HEADER_FILE], false).targets
  {
    NobodyLinks();
    ShadowClosuresRecorded();
    SeesHeader("tests/cpp/a.cpp");
    HeaderIsPlain();
    ShadowPlan(ShadowFacts());
  }

  lemma ShadowPlan(facts: Facts)
    requires facts.suites == ShadowSuites() && facts.closures == Ok(ShadowClosures()) && facts.headers == {HEADER}
    requires facts.emitterClosure == {} && facts.smokeTargets == SMOKE_TARGETS
    requires Avoids(HEADER_FILE, facts.broadFiles, facts.broadPrefixes) && IsCppHeader(HEADER_FILE)
    ensures "test_flux" !in PlanOf(facts, [HEADER_FILE], false).targets
    ensures "test_amr" in PlanOf(facts, [HEADER_FILE], false).targets
  {
    var path, suites := HEADER_FILE, facts.suites;
    assert INCLUDE_PREFIX + HEADER == path;
    assert suites[0] in suites && suites[2] in suites;
    ShadowNames(facts);
    assert "test_amr" in HeaderHits(facts, ShadowClosures(), HEADER);
    LoneHeaderExactly(facts, HEADER, "test_flux");
    LoneHeaderExactly(facts, HEADER, "test_amr");
  }

  lemma ShadowNames(facts: Facts)
    requires facts.suites == ShadowSuites()
    ensures AllTargets(facts) == {"test_flux", "test_amr"} == ShadowClosures().Keys
    ensures "test_flux" !in SMOKE_TARGETS && HEADER !in ShadowClosures()["test_flux"]
    ensures HEADER in ShadowClosures()["test_amr"]
  {
    var suites := facts.suites;
    assert suites[0] in suites && suites[2] in suites;
    assert "test_flux"[5] == 'f' && "test_amr"[5] == 'a' && "test_box"[5] == 'b' && "test_reduce"[5] == 'r';
    assert "test_system_abstraction"[5] == 's';
  }

  // ---- A suite that includes a private runtime header without linking its owner ----

  const LIBRARY := "pops_runtime_system"
  const OWNER_SOURCE := "src/runtime/o.cpp"
  const PRIVATE_HEADER := "src/runtime/s.hpp"
  const INCLUDER := "tests/cpp/a.cpp"
  const LINKER := "tests/cpp/c.cpp"

  /** The flux suite includes the private header, the other one links the library whose source includes it. */
  function RuntimeSuites(): seq<Suite> {
    [Suite("test_flux", {}, {INCLUDER}), Suite("test_amr", {}, {LINKER})]
  }

  function RuntimeRepo(): Repo {
    Repo(map[OWNER_SOURCE := SourceText({}, {"s.hpp"}), PRIVATE_HEADER := SourceText({}, {}),
             INCLUDER := SourceText({}, {"../../src/runtime/s.hpp"}), LINKER := SourceText({}, {})],
         {}, {OWNER_SOURCE, PRIVATE_HEADER, INCLUDER, LINKER}, n => INCLUDE_PREFIX + n,
         (p, q) => if (p == OWNER_SOURCE && q == "s.hpp") || (p == INCLUDER && q == "../../src/runtime/s.hpp")
                   then PRIVATE_HEADER else "elsewhere",
         q => "elsewhere")
  }

  function RuntimeLibrary(): RuntimeManifest {
    RuntimeManifest(map[LIBRARY := {OWNER_SOURCE}], map[LIBRARY := {}], map[LIBRARY := {"test_amr"}])
  }

  /** The selector of this checkout. */
  function RuntimeFacts(): Facts {
    TabledFacts(RuntimeSuites(), {}, map["test_flux" := {}, "test_amr" := {}]).(
      libs := Ok(LibraryMap(RuntimeLibrary().sources, map[LIBRARY := {"test_amr"}])),
      sourceDependencies := map[OWNER_SOURCE := {OWNER_SOURCE, PRIVATE_HEADER}])
  }

  /** A file with one quoted include that stands beside it depends on that file alone. */
  lemma QuotesOne(repo: Repo, isTest: bool, path: FilePath, quoted: string, target: FilePath)
    requires path in repo.files && repo.files[path] == SourceText({}, {quoted})
    requires repo.beside(path, quoted) == target && target in repo.inside && target in repo.files
    ensures Next(DependencyGraph(repo, isTest), path) == {target}
  {
    assert Resolve(repo, Candidates(repo, path, quoted, isTest)) == Some(target);
  }

  lemma ReachesOne(g: Graph, a: Node, b: Node)
    requires Next(g, a) == {b} && Next(g, b) == {}
    ensures forall c :: Reaches(g, a, c) <==> c == a || c == b
  {
    ReachesItself(g, a);
    ReachesStep(g, a, a, b);
    forall c | Reaches(g, a, c)
      ensures c == a || c == b
    {
      ReachesOnly(g, a, b, c);
    }
  }

  lemma PathsApart()
    ensures OWNER_SOURCE != PRIVATE_HEADER && OWNER_SOURCE != INCLUDER && PRIVATE_HEADER != INCLUDER
    ensures OWNER_SOURCE != LINKER && PRIVATE_HEADER != LINKER && INCLUDER != LINKER
  {
    assert OWNER_SOURCE[12] == 'o' && PRIVATE_HEADER[12] == 's' && INCLUDER[10] == 'a' && LINKER[10] == 'c';
    assert OWNER_SOURCE[0] == 's' && PRIVATE_HEADER[0] == 's' && INCLUDER[0] == 't' && LINKER[0] == 't';
  }

  lemma RuntimePaths()
    ensures OWNER_SOURCE != PRIVATE_HEADER
    ensures !IsTestSource(OWNER_SOURCE) && IsTestSource(INCLUDER)
    ensures IsRuntimeUnit(PRIVATE_HEADER) && EndsWithAny(PRIVATE_HEADER, PRIVATE_HEADER_SUFFIXES)
    ensures 4 < |PRIVATE_HEADER| && PRIVATE_HEADER[0] == 's' && PRIVATE_HEADER[4] == 'r'
  {
    assert OWNER_SOURCE[12] == 'o' && PRIVATE_HEADER[12] == 's' && OWNER_SOURCE[0] == 's';
    assert INCLUDER[..|"tests/cpp/"|] == "tests/cpp/";
    assert PRIVATE_HEADER[..|"src/runtime/"|] == "src/runtime/";
    assert PRIVATE_HEADER[|PRIVATE_HEADER| - |".hpp"|..] == ".hpp";
    assert ".hpp" in UNIT_SUFFIXES && ".hpp" in PRIVATE_HEADER_SUFFIXES;
  }

  /** The two quoted includes lead to the private header, which includes nothing. */
  ghost predicate RuntimeTree(repo: Repo) {
    && OWNER_SOURCE in repo.files && repo.files[OWNER_SOURCE] == SourceText({}, {"s.hpp"})
    && INCLUDER in repo.files && repo.files[INCLUDER] == SourceText({}, {"../../src/runtime/s.hpp"})
    && PRIVATE_HEADER in repo.files && repo.files[PRIVATE_HEADER] == SourceText({}, {})
    && OWNER_SOURCE in repo.inside && PRIVATE_HEADER in repo.inside && repo.unreadable == {}
    && repo.beside(OWNER_SOURCE, "s.hpp") == PRIVATE_HEADER
    && repo.beside(INCLUDER, "../../src/runtime/s.hpp") == PRIVATE_HEADER
  }

  lemma RuntimeRepoIsTree(repo: Repo)
    requires repo == RuntimeRepo()
    ensures RuntimeTree(repo)
  {
    PathsApart();
  }

  lemma OwnerIncludes(repo: Repo)
    requires RuntimeTree(repo)
    ensures forall p :: Reaches(DependencyGraph(repo, false), OWNER_SOURCE, p) <==> p == OWNER_SOURCE || p == PRIVATE_HEADER
  {
    QuotesOne(repo, false, OWNER_SOURCE, "s.hpp", PRIVATE_HEADER);
    ReachesOne(DependencyGraph(repo, false), OWNER_SOURCE, PRIVATE_HEADER);
  }

  lemma SuiteIncludes(repo: Repo)
    requires RuntimeTree(repo)
    ensures Reaches(DependencyGraph(repo, true), INCLUDER, PRIVATE_HEADER)
  {
    QuotesOne(repo, true, INCLUDER, "../../src/runtime/s.hpp", PRIVATE_HEADER);
    ReachesOne(DependencyGraph(repo, true), INCLUDER, PRIVATE_HEADER);
  }

  /** Only test_amr consumes the library. */
  lemma RuntimeConsumed(manifest: RuntimeManifest, name: string)
    requires manifest == RuntimeLibrary()
    ensures Consumes(manifest.dependencies, manifest.direct, LIBRARY, name) <==> name == "test_amr"
  {
    ReachesItself(manifest.dependencies, LIBRARY);
    assert LIBRARY in manifest.dependencies;
  }

  /** The selector read the owner map and the dependencies of the owner's source. */
  ghost predicate RuntimeRead(facts: Facts, manifest: RuntimeManifest) {
    && facts.libs == Ok(LibraryMap(manifest.sources, map[LIBRARY := {"test_amr"}]))
    && manifest.sources == map[LIBRARY := {OWNER_SOURCE}]
    && OWNER_SOURCE in facts.sourceDependencies
    && facts.sourceDependencies[OWNER_SOURCE] == {OWNER_SOURCE, PRIVATE_HEADER}
  }

  lemma RuntimeLibrariesMapped(manifest: RuntimeManifest, libs: LibraryMap)
    requires manifest == RuntimeLibrary() && libs == LibraryMap(manifest.sources, map[LIBRARY := {"test_amr"}])
    ensures MapOf(manifest, libs)
  {
    forall name
      ensures Consumes(manifest.dependencies, manifest.direct, LIBRARY, name) <==> name == "test_amr"
    {
      RuntimeConsumed(manifest, name);
    }
  }

  lemma OwnerRead(facts: Facts, repo: Repo, manifest: RuntimeManifest)
    requires RuntimeTree(repo) && RuntimeRead(facts, manifest)
    ensures DependenciesRead(facts, repo, OWNER_SOURCE)
  {
    RuntimePaths();
    OwnerIncludes(repo);
  }

  lemma RuntimeFactsRead(facts: Facts, repo: Repo, manifest: RuntimeManifest)
    requires RuntimeTree(repo) && manifest == RuntimeLibrary() && RuntimeRead(facts, manifest)
    ensures RuntimeReadFrom(facts, repo, manifest)
  {
    OwnerRead(facts, repo, manifest);
    RuntimeLibrariesMapped(manifest, facts.libs.value);
  }

  /** The private header is mapped to the library. */
  lemma PrivateHeaderMapped(facts: Facts, manifest: RuntimeManifest)
    requires RuntimeRead(facts, manifest)
    ensures RuntimeMapped(facts, PRIVATE_HEADER)
  {
    RuntimePaths();
    assert LIBRARY in Owners(facts, facts.libs.value, PRIVATE_HEADER);
  }

  /** Only test_amr links an owner of the private header. */
  lemma RuntimeLinks(repo: Repo, manifest: RuntimeManifest)
    requires RuntimeTree(repo) && manifest == RuntimeLibrary()
    ensures Links(repo, manifest, "test_amr", PRIVATE_HEADER) && !Links(repo, manifest, "test_flux", PRIVATE_HEADER)
  {
    RuntimePaths();
    OwnerIncludes(repo);
    RuntimeConsumed(manifest, "test_amr");
    RuntimeConsumed(manifest, "test_flux");
    assert "test_flux"[5] == 'f' && "test_amr"[5] == 'a';
    assert OwnerCompiles(repo, manifest, LIBRARY, PRIVATE_HEADER);
  }

  lemma SourceAvoidsTables(path: string)
    requires 4 < |path| && path[0] == 's' && path[4] == 'r'
    ensures Avoids(path, BROAD_FILES, BROAD_PREFIXES) && Avoids(path, META_FILES, META_PREFIXES)
  {
    if path in BROAD_FILES { BroadFilesStart(path); }
    if path in META_FILES { MetaFilesStart(path); }
    if f :| f in BROAD_PREFIXES && f <= path { BroadPrefixesStart(f); }
    if f :| f in META_PREFIXES && f <= path { MetaPrefixesStart(f); }
  }

  lemma RuntimeNames(facts: Facts)
    requires facts.suites == RuntimeSuites()
    ensures "test_flux" in AllTargets(facts) && "test_amr" in AllTargets(facts)
    ensures "test_flux" !in SMOKE_TARGETS
  {
    var suites := facts.suites;
    assert suites[0] in suites && suites[1] in suites;
    assert "test_flux"[5] == 'f' && "test_box"[5] == 'b' && "test_reduce"[5] == 'r';
    assert "test_system_abstraction"[5] == 's';
  }

  /** The plan of any selector with these suites that read this checkout, and whose tables say nothing of the path. */
  lemma RuntimePlan(facts: Facts, repo: Repo, manifest: RuntimeManifest, path: string)
    requires path == PRIVATE_HEADER && RuntimeReadFrom(facts, repo, manifest) && RuntimeMapped(facts, path)
    requires Links(repo, manifest, "test_amr", path) && !Links(repo, manifest, "test_flux", path)
    requires facts.suites == RuntimeSuites() && facts.smokeTargets == SMOKE_TARGETS
    requires Avoids(path, facts.broadFiles, facts.broadPrefixes) && Avoids(path, facts.metaFiles, facts.metaPrefixes)
    ensures "test_flux" !in PlanOf(facts, [path], false).targets && "test_amr" in PlanOf(facts, [path], false).targets
  {
    RuntimeNames(facts);
    assert path in [path];
    LoneRuntimeFileExactly(facts, repo, manifest, path, "test_flux");
    LoneRuntimeFileExactly(facts, repo, manifest, path, "test_amr");
  }

  lemma FluxIncludes(repo: Repo, suite: Suite)
    requires RuntimeTree(repo) && suite.sources == {INCLUDER}
    ensures Includes(repo, suite, PRIVATE_HEADER)
  {
    RuntimePaths();
    SuiteIncludes(repo);
    assert INCLUDER in suite.sources;
  }

  /** What the instance needs of the selector. */
  ghost predicate RuntimeSelector(facts: Facts, manifest: RuntimeManifest, path: string) {
    && RuntimeRead(facts, manifest) && facts.suites == RuntimeSuites() && facts.smokeTargets == SMOKE_TARGETS
    && Avoids(path, facts.broadFiles, facts.broadPrefixes) && Avoids(path, facts.metaFiles, facts.metaPrefixes)
  }

  lemma RuntimeFactsSelect(facts: Facts, manifest: RuntimeManifest, path: string)
    requires facts == RuntimeFacts() && manifest == RuntimeLibrary()
    requires Avoids(path, BROAD_FILES, BROAD_PREFIXES) && Avoids(path, META_FILES, META_PREFIXES)
    ensures RuntimeSelector(facts, manifest, path)
  {}

  lemma RuntimeInstance(facts: Facts, repo: Repo, manifest: RuntimeManifest, path: string)
    requires RuntimeTree(repo) && manifest == RuntimeLibrary() && path == PRIVATE_HEADER
    requires RuntimeSelector(facts, manifest, path)
    ensures RuntimeReadFrom(facts, repo, manifest)
    ensures "test_flux" !in PlanOf(facts, [path], false).targets && "test_amr" in PlanOf(facts, [path], false).targets
  {
    RuntimeFactsRead(facts, repo, manifest);
    PrivateHeaderMapped(facts, manifest);
    RuntimeLinks(repo, manifest);
    RuntimePlan(facts, repo, manifest, path);
  }

  lemma RuntimeHeaderPlain(path: string)
    requires path == PRIVATE_HEADER
    ensures Avoids(path, BROAD_FILES, BROAD_PREFIXES) && Avoids(path, META_FILES, META_PREFIXES)
  {
    RuntimePaths();
    SourceAvoidsTables(path);
  }

  /** A source of the flux suite includes the changed private header, and yet the plan runs test_amr alone: only that
      suite links the library whose source includes it. */
  lemma UnlinkedIncluderIsMissed(facts: Facts, repo: Repo, manifest: RuntimeManifest, path: string)
    requires facts == RuntimeFacts() && repo == RuntimeRepo() && manifest == RuntimeLibrary() && path == PRIVATE_HEADER
    ensures RuntimeReadFrom(facts, repo, manifest)
    ensures Includes(repo, RuntimeSuites()[0], path) && Reaches(DependencyGraph(repo, true), INCLUDER, path)
    ensures "test_flux" !in PlanOf(facts, [path], false).targets && "test_amr" in PlanOf(facts, [path], false).targets
  {
    RuntimeRepoIsTree(repo);
    FluxIncludes(repo, RuntimeSuites()[0]);
    SuiteIncludes(repo);
    RuntimeHeaderPlain(path);
    RuntimeFactsSelect(facts, manifest, path);
    RuntimeInstance(facts, repo, manifest, path);
  }
}
