/** The decision of plan_cpp and its soundness (scripts/ci_select_tests.py). */
module CppPlan {
  import opened Reach
  import opened Results
  import opened IncludeGraph
  import opened RuntimeConsumers
  import opened CppCatalogs
  import opened CppImpact

  datatype Mode = All | Subset | Nothing

  datatype Plan = Plan(mode: Mode, targets: set<string>)

  datatype PlanError = NoSuites | BadCatalogs(error: CatalogError)

  predicate Broad(facts: Facts, changed: seq<string>) {
    exists p :: p in changed && (p in facts.broadFiles || StartsWithAny(p, facts.broadPrefixes))
  }

  predicate OnlyMeta(facts: Facts, changed: seq<string>) {
    forall p :: p in changed ==> StartsWithAny(p, facts.metaPrefixes) || p in facts.metaFiles
  }

  predicate AllWithoutImpact(facts: Facts, changed: seq<string>) {
    forall p :: p in changed ==> Classify(facts, p).kind == NoImpact
  }

  predicate SourceChange(facts: Facts, changed: seq<string>) {
    exists p :: p in changed && Classify(facts, p).kind != TestTarget && Classify(facts, p).kind != NoImpact
  }

  function Smoke(facts: Facts, changed: seq<string>): set<string> {
    if SourceChange(facts, changed) then facts.smokeTargets * AllTargets(facts) else {}
  }

  /** Some changed path forces the complete selection. */
  predicate Forced(facts: Facts, changed: seq<string>, forceAll: bool) {
    forceAll || Broad(facts, changed) || Forcing(facts, changed) != []
  }

  /** Nothing forces and nothing selects, yet the change is neither pure metadata nor without impact. */
  predicate Fallback(facts: Facts, changed: seq<string>, forceAll: bool) {
    && !Forced(facts, changed, forceAll) && Selected(facts, changed) == {}
    && !OnlyMeta(facts, changed) && !AllWithoutImpact(facts, changed)
  }

  function PlanOf(facts: Facts, changed: seq<string>, forceAll: bool): Plan {
    if Forced(facts, changed, forceAll) || Fallback(facts, changed, forceAll) then Plan(All, AllTargets(facts))
    else if Selected(facts, changed) == {} then Plan(Nothing, {})
    else Plan(Subset, Selected(facts, changed) + Smoke(facts, changed))
  }

  /** No two suites share a name. */
  ghost predicate UniqueNames(suites: seq<Suite>) {
    forall i, j :: 0 <= i < j < |suites| ==> suites[i].name != suites[j].name
  }

  /** A complete selection lists every suite by name, and the sharding that follows refuses repeated targets: the run
      ends without a plan. */
  ghost predicate Refused(facts: Facts, changed: seq<string>, forceAll: bool) {
    PlanOf(facts, changed, forceAll).mode == All && !UniqueNames(facts.suites)
  }

  predicate SourceEntry(impact: map<string, Impact>) {
    exists p :: p in impact && impact[p].kind != TestTarget && impact[p].kind != NoImpact
  }

  predicate NoEntry(impact: map<string, Impact>) {
    forall p :: p in impact ==> impact[p].kind == NoImpact
  }

  lemma EntriesAre(facts: Facts, changed: seq<string>)
    ensures SourceEntry(ImpactOf(facts, changed)) <==> SourceChange(facts, changed)
    ensures NoEntry(ImpactOf(facts, changed)) <==> AllWithoutImpact(facts, changed)
  {
    var impact := ImpactOf(facts, changed);
    assert forall p :: p in changed <==> p in impact;
  }

  /** The per-file pass and its two escalations. */
  method PlanByFile(facts: Facts, changed: seq<string>) returns (full: bool, selected: set<string>)
    ensures full <==> Forcing(facts, changed) != []
                      || (Selected(facts, changed) == {} && !OnlyMeta(facts, changed) && !AllWithoutImpact(facts, changed))
    ensures !full ==> selected == if Selected(facts, changed) == {} then {}
                                  else Selected(facts, changed) + Smoke(facts, changed)
  {
    var forcing, areas, impact;
    selected, forcing, areas, impact := ClassifyCppImpact(facts, changed);
    EntriesAre(facts, changed);
    full := false;
    if forcing != [] {
      full := true;
    } else if selected != {} {
      if SourceEntry(impact) {
        selected := selected + facts.smokeTargets * AllTargets(facts);
      }
    } else if !OnlyMeta(facts, changed) && !NoEntry(impact) {
      full := true;
    }
  }

  method PlanCpp(facts: Facts, build: CatalogFile, test: CatalogFile, changed: seq<string>, forceAll: bool)
    returns (r: Result<Plan, PlanError>)
    ensures r == Err(NoSuites) <==> facts.suites == []
    ensures r.Err? && r.error.BadCatalogs? <==>
              facts.suites != [] && !(Exact(build, AllTargets(facts)) && Exact(test, AllTargets(facts)))
    ensures r.Ok? ==> r.value == PlanOf(facts, changed, forceAll)
    ensures r.Ok? && (forceAll || exists p :: p in changed && (p in facts.broadFiles || exists q :: q in facts.broadPrefixes && q <= p))
            ==> r.value == Plan(All, set s | s in facts.suites :: s.name)
  {
    if facts.suites == [] {
      return Err(NoSuites);
    }
    var allTargets := AllTargets(facts);
    var invalid := ValidateCatalogs(allTargets, build, test);
    if invalid.Some? {
      return Err(BadCatalogs(invalid.value));
    }
    var full := forceAll || Broad(facts, changed);
    var selected: set<string> := {};
    if !full {
      full, selected := PlanByFile(facts, changed);
    }
    BroadSelectsAll(facts, changed, forceAll);
    if full {
      return Ok(Plan(All, allTargets));
    }
    return Ok(Plan(if selected != {} then Subset else Nothing, selected));
  }

  // ---- The plan in terms of the files ----

  /** A forced run, a broad file or a file below a broad prefix runs every suite. */
  lemma BroadSelectsAll(facts: Facts, changed: seq<string>, forceAll: bool)
    ensures (forceAll || exists p :: p in changed && (p in facts.broadFiles || exists q :: q in facts.broadPrefixes && q <= p))
            ==> PlanOf(facts, changed, forceAll) == Plan(All, set s | s in facts.suites :: s.name)
  {
    if p :| p in changed && (p in facts.broadFiles || exists q :: q in facts.broadPrefixes && q <= p) {
      if p !in facts.broadFiles {
        var q :| q in facts.broadPrefixes && q <= p;
        assert StartsWithAny(p, facts.broadPrefixes);
      }
      assert Broad(facts, changed);
    }
  }

  /** Some file is broad, or forces a complete selection. */
  ghost predicate SomeForces(facts: Facts, changed: seq<string>) {
    exists p :: p in changed && (|| p in facts.broadFiles
                                 || (exists q :: q in facts.broadPrefixes && q <= p)
                                 || Classify(facts, p).kind == FullSelection)
  }

  /** No file selects a target, and yet one is no metadata and one has an impact. */
  ghost predicate NothingFound(facts: Facts, changed: seq<string>) {
    && (forall p :: p in changed ==> Classify(facts, p).targets == {})
    && (exists p :: p in changed && p !in facts.metaFiles && forall q :: q in facts.metaPrefixes ==> !(q <= p))
    && exists p :: p in changed && Classify(facts, p).kind != NoImpact
  }

  /** A smoke target comes along when some file selects a target and some file is neither a test nor without impact. */
  ghost predicate SmokeRuns(facts: Facts, changed: seq<string>, name: string) {
    && name in facts.smokeTargets && (exists s :: s in facts.suites && s.name == name)
    && (exists p :: p in changed && Classify(facts, p).targets != {})
    && exists p :: p in changed && Classify(facts, p).kind !in {TestTarget, NoImpact}
  }

  /** The plan, file by file. */
  lemma PlanExactly(facts: Facts, changed: seq<string>, forceAll: bool, name: string)
    ensures var plan := PlanOf(facts, changed, forceAll);
            var complete := forceAll || SomeForces(facts, changed) || NothingFound(facts, changed);
            && (plan.mode == All <==> complete)
            && (plan.mode == Nothing <==> !complete && forall p :: p in changed ==> Classify(facts, p).targets == {})
            && (complete ==> (name in plan.targets <==> exists s :: s in facts.suites && s.name == name))
            && (!complete ==> (name in plan.targets <==>
                  (exists p :: p in changed && name in Classify(facts, p).targets) || SmokeRuns(facts, changed, name)))
  {
    ForcesExactly(facts, changed);
    FallsBackExactly(facts, changed);
    SelectsExactly(facts, changed);
    assert name in AllTargets(facts) <==> exists s :: s in facts.suites && s.name == name;
  }

  lemma SelectsExactly(facts: Facts, changed: seq<string>)
    ensures Selected(facts, changed) == {} <==> forall p :: p in changed ==> Classify(facts, p).targets == {}
    ensures forall name :: name in Selected(facts, changed) <==> exists p :: p in changed && name in Classify(facts, p).targets
  {
    if p :| p in changed && Classify(facts, p).targets != {} {
      var name :| name in Classify(facts, p).targets;
      assert name in Selected(facts, changed);
    }
  }

  lemma ForcesExactly(facts: Facts, changed: seq<string>)
    ensures Broad(facts, changed) || Forcing(facts, changed) != [] <==> SomeForces(facts, changed)
  {
    if p :| p in changed && Classify(facts, p).kind == FullSelection {
      ForcingHolds(facts, changed, p);
    }
    ForcingIsForced(facts, changed);
  }

  lemma {:induction false} ForcingIsForced(facts: Facts, changed: seq<string>)
    ensures Forcing(facts, changed) != [] ==> exists p :: p in changed && Classify(facts, p).kind == FullSelection
  {
    if changed != [] {
      ForcingIsForced(facts, changed[1..]);
      assert changed[0] in changed && forall p :: p in changed[1..] ==> p in changed;
    }
  }

  lemma FallsBackExactly(facts: Facts, changed: seq<string>)
    ensures Selected(facts, changed) == {} && !OnlyMeta(facts, changed) && !AllWithoutImpact(facts, changed)
            <==> NothingFound(facts, changed)
  {
    SelectsExactly(facts, changed);
  }

  // ---- Header soundness ----

  /** A changed header that a suite compiles selects the suite, or everything. */
  lemma HeaderSelectsSuite(facts: Facts, changed: seq<string>, forceAll: bool, n: Node, suite: Suite)
    requires INCLUDE_PREFIX + n in changed && IsCppHeader(INCLUDE_PREFIX + n) && suite in facts.suites
    requires facts.closures.Ok? ==> suite.name in facts.closures.value && n in facts.closures.value[suite.name]
    ensures suite.name in PlanOf(facts, changed, forceAll).targets
  {
    var path := INCLUDE_PREFIX + n;
    assert suite.name in AllTargets(facts);
    assert path[|INCLUDE_PREFIX|..] == n;
    var found := Classify(facts, path);
    if found.kind == FullSelection {
      ForcingHolds(facts, changed, path);
    } else {
      assert found == ClassifyHeader(facts, path);
      assert suite.name in found.targets;
      assert suite.name in Selected(facts, changed);
    }
  }

  lemma {:induction false} ForcingHolds(facts: Facts, changed: seq<string>, path: string)
    requires path in changed && Classify(facts, path).kind == FullSelection
    ensures Forcing(facts, changed) != []
  {
    if changed[0] != path {
      ForcingHolds(facts, changed[1..], path);
    }
  }

  /** The suite compiles the header: a source of its own includes it, or a source of a runtime owner B does,
      where B is reached through library dependencies from a library A that the suite links. */
  ghost predicate Compiles(repo: Repo, manifest: RuntimeManifest, suite: Suite, n: Node) {
    || SomeSourceSees(repo, suite.sources, n)
    || exists a, b :: a in manifest.dependencies && suite.name in Next(manifest.direct, a)
                      && Reaches(manifest.dependencies, a, b)
                      && b in manifest.sources && SomeSourceSees(repo, manifest.sources[b], n)
  }

  /** The closures the selector works with were read from this checkout and manifest, or reading failed. */
  ghost predicate ReadFrom(facts: Facts, repo: Repo, manifest: RuntimeManifest) {
    facts.closures.Ok? ==>
      exists libs :: MapOf(manifest, libs) && ClosuresOf(repo, libs, facts.suites, facts.closures.value)
  }

  lemma CompilesIsSeen(repo: Repo, manifest: RuntimeManifest, libs: LibraryMap, suite: Suite, n: Node)
    requires MapOf(manifest, libs)
    ensures Compiles(repo, manifest, suite, n) <==> SuiteSees(repo, libs, suite, n)
  {
    if a, b :| a in manifest.dependencies && suite.name in Next(manifest.direct, a)
               && Reaches(manifest.dependencies, a, b)
               && b in manifest.sources && SomeSourceSees(repo, manifest.sources[b], n) {
      assert Consumes(manifest.dependencies, manifest.direct, b, suite.name);
      assert LibrarySees(repo, libs, b, n);
    }
    if lib :| lib in libs.consumers && suite.name in libs.consumers[lib] && LibrarySees(repo, libs, lib, n) {
      var a :| a in manifest.dependencies && Reaches(manifest.dependencies, a, lib) && suite.name in Next(manifest.direct, a);
      assert SomeSourceSees(repo, manifest.sources[lib], n);
    }
  }

  /** End to end: include graph, library dependencies, closures and plan never lose a suite that compiles a
      changed header. */
  lemma ChangedHeaderIsCovered(facts: Facts, repo: Repo, manifest: RuntimeManifest, changed: seq<string>,
                               forceAll: bool, n: Node, i: nat)
    requires ReadFrom(facts, repo, manifest) && LastOfName(facts.suites, i)
    requires INCLUDE_PREFIX + n in changed && IsCppHeader(INCLUDE_PREFIX + n)
    requires Compiles(repo, manifest, facts.suites[i], n)
    ensures facts.suites[i].name in PlanOf(facts, changed, forceAll).targets
  {
    var suite := facts.suites[i];
    if facts.closures.Ok? {
      var libs :| MapOf(manifest, libs) && ClosuresOf(repo, libs, facts.suites, facts.closures.value);
      CompilesIsSeen(repo, manifest, libs, suite, n);
      assert ClosureHolds(repo, libs, suite, facts.closures.value);
    }
    HeaderSelectsSuite(facts, changed, forceAll, n, suite);
  }

  // ---- What a lone change selects ----

  /** A plan for one path that is not broad: everything when the path forces it or is recognised without a target,
      otherwise the path's targets and, if it is a source, the smoke targets. */
  lemma LoneFileExactly(facts: Facts, path: string, name: string)
    requires !Broad(facts, [path]) && name in AllTargets(facts)
    ensures var found := Classify(facts, path);
            name in PlanOf(facts, [path], false).targets
            <==> || found.kind == FullSelection || name in found.targets
                 || (found.targets != {} && found.kind != TestTarget && name in facts.smokeTargets)
                 || (found.targets == {} && found.kind != NoImpact && !OnlyMeta(facts, [path]))
    ensures var found := Classify(facts, path);
            PlanOf(facts, [path], false).mode == All
            <==> || found.kind == FullSelection
                 || (found.targets == {} && found.kind != NoImpact && !OnlyMeta(facts, [path]))
  {
    SingleFile(facts, path);
    assert path in [path] && forall p :: p in [path] ==> p == path;
    assert Classify(facts, path).kind == NoImpact ==> Classify(facts, path).targets == {};
  }

  /** A lone header change runs a suite exactly when the suite's recorded closure holds the header, or the suite is one
      of the generated-code suites of an emitted header, or it is a smoke target, or no suite at all is hit. */
  lemma LoneHeaderExactly(facts: Facts, n: Node, name: string)
    requires facts.closures.Ok? && facts.closures.value.Keys == AllTargets(facts) && n in facts.headers
    requires IsCppHeader(INCLUDE_PREFIX + n) && !Broad(facts, [INCLUDE_PREFIX + n]) && name in AllTargets(facts)
    ensures name in PlanOf(facts, [INCLUDE_PREFIX + n], false).targets
            <==> || n in facts.closures.value[name]
                 || (n in facts.emitterClosure && name in ByLabels(facts, CODEGEN_AREAS))
                 || name in facts.smokeTargets
                 || HeaderHits(facts, facts.closures.value, n) == {}
    ensures PlanOf(facts, [INCLUDE_PREFIX + n], false).mode == All <==> HeaderHits(facts, facts.closures.value, n) == {}
  {
    var path := INCLUDE_PREFIX + n;
    assert path[|INCLUDE_PREFIX|..] == n;
    LoneFileExactly(facts, path, name);
    assert Classify(facts, path) == ClassifyHeader(facts, path);
  }

  /** In terms of the checkout: what counts is the last suite of the name. A change of a header that no suite is hit by
      is refused; otherwise a suite with a later namesake is selected exactly when that namesake compiles the header, or
      for one of the other reasons. */
  lemma ShadowedSuiteExactly(facts: Facts, repo: Repo, manifest: RuntimeManifest, n: Node, i: nat, j: nat)
    requires facts.closures.Ok? && ReadFrom(facts, repo, manifest) && n in facts.headers
    requires IsCppHeader(INCLUDE_PREFIX + n) && !Broad(facts, [INCLUDE_PREFIX + n])
    requires i < j && LastOfName(facts.suites, j) && facts.suites[i].name == facts.suites[j].name
    ensures Refused(facts, [INCLUDE_PREFIX + n], false) <==> HeaderHits(facts, facts.closures.value, n) == {}
    ensures var name := facts.suites[i].name;
            !Refused(facts, [INCLUDE_PREFIX + n], false) ==>
              (name in PlanOf(facts, [INCLUDE_PREFIX + n], false).targets
               <==> || Compiles(repo, manifest, facts.suites[j], n)
                    || (n in facts.emitterClosure && name in ByLabels(facts, CODEGEN_AREAS))
                    || name in facts.smokeTargets)
  {
    var libs :| MapOf(manifest, libs) && ClosuresOf(repo, libs, facts.suites, facts.closures.value);
    var suite := facts.suites[j];
    CompilesIsSeen(repo, manifest, libs, suite, n);
    assert ClosureHolds(repo, libs, suite, facts.closures.value);
    assert facts.suites[i] in facts.suites;
    LoneHeaderExactly(facts, n, suite.name);
  }

  /** With unique names no suite that compiles a changed header is ever lost. */
  lemma ChangedHeaderIsCoveredByUniqueNames(facts: Facts, repo: Repo, manifest: RuntimeManifest, changed: seq<string>,
                                            forceAll: bool, n: Node)
    requires ReadFrom(facts, repo, manifest) && UniqueNames(facts.suites)
    requires INCLUDE_PREFIX + n in changed && IsCppHeader(INCLUDE_PREFIX + n)
    ensures forall suite :: suite in facts.suites && Compiles(repo, manifest, suite, n) ==>
              suite.name in PlanOf(facts, changed, forceAll).targets
  {
    forall suite | suite in facts.suites && Compiles(repo, manifest, suite, n)
      ensures suite.name in PlanOf(facts, changed, forceAll).targets
    {
      var i :| 0 <= i < |facts.suites| && facts.suites[i] == suite;
      ChangedHeaderIsCovered(facts, repo, manifest, changed, forceAll, n, i);
    }
  }

  // ---- Files of the runtime libraries ----

  /** What the selector knows of one owner's source is what its includes reach, or that they cannot be read. */
  ghost predicate DependenciesRead(facts: Facts, repo: Repo, s: FilePath) {
    && (s in facts.sourceDependencies <==> SourceReadable(repo, s, IsTestSource(s)))
    && (s in facts.sourceDependencies ==> forall p :: p in facts.sourceDependencies[s] <==>
          p in repo.inside && Reaches(DependencyGraph(repo, IsTestSource(s)), s, p))
  }

  /** The owner map and the dependencies were read from this checkout and manifest, or reading the map failed. */
  ghost predicate RuntimeReadFrom(facts: Facts, repo: Repo, manifest: RuntimeManifest) {
    facts.libs.Ok? ==>
      && MapOf(manifest, facts.libs.value)
      && forall lib, s :: lib in manifest.sources && s in manifest.sources[lib] ==> DependenciesRead(facts, repo, s)
  }

  /** The owner compiles the file: it lists it, or one of its sources reaches it as a private header. */
  ghost predicate OwnerCompiles(repo: Repo, manifest: RuntimeManifest, lib: Node, path: FilePath) {
    && lib in manifest.sources
    && (path in manifest.sources[lib]
        || (EndsWithAny(path, PRIVATE_HEADER_SUFFIXES) && path in repo.inside
            && exists s :: s in manifest.sources[lib] && Reaches(DependencyGraph(repo, IsTestSource(s)), s, path)))
  }

  /** The suite links, through library dependencies, an owner that compiles the file. */
  ghost predicate Links(repo: Repo, manifest: RuntimeManifest, name: string, path: FilePath) {
    exists lib :: OwnerCompiles(repo, manifest, lib, path)
                  && Consumes(manifest.dependencies, manifest.direct, lib, name)
  }

  /** Without a failing lookup the owners found are exactly those that compile the file. */
  lemma FoundOwners(facts: Facts, repo: Repo, manifest: RuntimeManifest, lib: Node, path: string)
    requires facts.libs.Ok? && RuntimeReadFrom(facts, repo, manifest)
    requires forall l :: l in facts.libs.value.sources ==> !OwnerUnreadable(facts, path, l, facts.libs.value.sources[l])
    ensures lib in Owners(facts, facts.libs.value, path) <==> OwnerCompiles(repo, manifest, lib, path)
  {
    if lib in manifest.sources {
      var sources := manifest.sources[lib];
      assert !OwnerUnreadable(facts, path, lib, sources);
      assert forall s :: s in sources ==> DependenciesRead(facts, repo, s);
      if s :| s in sources && Reaches(DependencyGraph(repo, IsTestSource(s)), s, path) && path in repo.inside {
        assert s in facts.sourceDependencies ==> path in facts.sourceDependencies[s];
      }
    }
  }

  /** A file that is mapped without failure has exactly the owners that compile it. */
  lemma MappedOwners(facts: Facts, repo: Repo, manifest: RuntimeManifest, lib: Node, path: string)
    requires RuntimeMapped(facts, path) && RuntimeReadFrom(facts, repo, manifest)
    ensures lib in Owners(facts, facts.libs.value, path) <==> OwnerCompiles(repo, manifest, lib, path)
  {
    FoundOwners(facts, repo, manifest, lib, path);
  }

  /** The search of the library's sources for a private header fails: some source cannot be read, and the search does
      not meet one that includes the header first. */
  ghost predicate LookupFails(facts: Facts, repo: Repo, manifest: RuntimeManifest, lib: Node, path: FilePath) {
    && lib in manifest.sources && path !in manifest.sources[lib]
    && EndsWithAny(path, [".hpp", ".h", ".hh", ".hxx"])
    && (exists s :: s in manifest.sources[lib] && !SourceReadable(repo, s, IsTestSource(s)))
    && ((exists s :: s in manifest.sources[lib] && SourceReadable(repo, s, IsTestSource(s)) && path in repo.inside
                     && Reaches(DependencyGraph(repo, IsTestSource(s)), s, path))
        ==> facts.unreadableFirst(lib, path))
  }

  /** A runtime file forces exactly when it is no unit, the owner map cannot be read, a lookup fails, or no owner compiles
      it. */
  lemma RuntimeImpact(facts: Facts, repo: Repo, manifest: RuntimeManifest, path: string)
    requires "src/runtime/" <= path && RuntimeReadFrom(facts, repo, manifest)
    ensures var found := Classify(facts, path);
            && found.kind in {FullSelection, RuntimeTargets}
            && (found.kind == FullSelection
                <==> || !EndsWithAny(path, [".cpp", ".hpp", ".h", ".hh", ".hxx"]) || facts.libs.Err?
                     || (exists lib :: LookupFails(facts, repo, manifest, lib, path))
                     || forall lib :: !OwnerCompiles(repo, manifest, lib, path))
  {
    RuntimePath(facts, path);
    if facts.libs.Ok? {
      var libs := facts.libs.value;
      forall lib
        ensures LookupFails(facts, repo, manifest, lib, path)
                <==> lib in libs.sources && OwnerUnreadable(facts, path, lib, libs.sources[lib])
      {
        LookupExactly(facts, repo, manifest, lib, path);
      }
      if forall lib :: lib in libs.sources ==> !OwnerUnreadable(facts, path, lib, libs.sources[lib]) {
        forall lib
          ensures lib in Owners(facts, libs, path) <==> OwnerCompiles(repo, manifest, lib, path)
        {
          FoundOwners(facts, repo, manifest, lib, path);
        }
      }
    }
  }

  lemma LookupExactly(facts: Facts, repo: Repo, manifest: RuntimeManifest, lib: Node, path: string)
    requires facts.libs.Ok? && RuntimeReadFrom(facts, repo, manifest)
    ensures LookupFails(facts, repo, manifest, lib, path)
            <==> lib in manifest.sources && OwnerUnreadable(facts, path, lib, manifest.sources[lib])
  {
    if lib in manifest.sources {
      assert forall s :: s in manifest.sources[lib] ==> DependenciesRead(facts, repo, s);
    }
  }

  /** A change to a runtime file, private header or source, selects every suite that links an owner compiling it, or
      everything. */
  lemma ChangedRuntimeFileIsCovered(facts: Facts, repo: Repo, manifest: RuntimeManifest, changed: seq<string>,
                                    forceAll: bool, path: string, name: string)
    requires RuntimeReadFrom(facts, repo, manifest) && path in changed && "src/runtime/" <= path
    requires name in AllTargets(facts) && Links(repo, manifest, name, path)
    ensures name in PlanOf(facts, changed, forceAll).targets
  {
    RuntimePath(facts, path);
    if RuntimeMapped(facts, path) {
      var lib :| OwnerCompiles(repo, manifest, lib, path)
                 && Consumes(manifest.dependencies, manifest.direct, lib, name);
      MappedOwners(facts, repo, manifest, lib, path);
      assert name in Classify(facts, path).targets;
      assert name in Selected(facts, changed);
    } else {
      ForcingHolds(facts, changed, path);
    }
  }

  /** A lone change to a runtime file runs a suite exactly when the file is not mapped, or the suite links an owner
      compiling the file, or it is a smoke target, or no suite links such an owner. */
  lemma LoneRuntimeFileExactly(facts: Facts, repo: Repo, manifest: RuntimeManifest, path: string, name: string)
    requires "src/runtime/" <= path && RuntimeReadFrom(facts, repo, manifest)
    requires !Broad(facts, [path]) && !OnlyMeta(facts, [path]) && name in AllTargets(facts)
    ensures name in PlanOf(facts, [path], false).targets
            <==> || !RuntimeMapped(facts, path)
                 || Links(repo, manifest, name, path)
                 || name in facts.smokeTargets
                 || NobodyLinks(facts, repo, manifest, path)
  {
    RuntimePath(facts, path);
    LoneFileExactly(facts, path, name);
    if RuntimeMapped(facts, path) {
      forall other | other in AllTargets(facts)
        ensures other in Classify(facts, path).targets <==> Links(repo, manifest, other, path)
      {
        LinkedIsTarget(facts, repo, manifest, path, other);
      }
    }
  }

  ghost predicate NobodyLinks(facts: Facts, repo: Repo, manifest: RuntimeManifest, path: FilePath) {
    forall other :: other in AllTargets(facts) ==> !Links(repo, manifest, other, path)
  }

  /** A source of the suite's own reaches the file through its includes. */
  ghost predicate Includes(repo: Repo, suite: Suite, path: FilePath) {
    exists s :: s in suite.sources && Reaches(DependencyGraph(repo, IsTestSource(s)), s, path)
  }

  /** A suite whose own sources include a private runtime header is not selected for that. All of them are covered
      exactly when the header is not mapped, or no suite links an owner of it, or each of them links one or is a smoke
      target. */
  lemma IncludersCoveredExactly(facts: Facts, repo: Repo, manifest: RuntimeManifest, path: string)
    requires "src/runtime/" <= path && RuntimeReadFrom(facts, repo, manifest)
    requires !Broad(facts, [path]) && !OnlyMeta(facts, [path])
    ensures (forall suite :: suite in facts.suites && Includes(repo, suite, path) ==>
               suite.name in PlanOf(facts, [path], false).targets)
            <==> || !RuntimeMapped(facts, path)
                 || NobodyLinks(facts, repo, manifest, path)
                 || forall suite :: suite in facts.suites && Includes(repo, suite, path) ==>
                      Links(repo, manifest, suite.name, path) || suite.name in facts.smokeTargets
  {
    forall suite | suite in facts.suites
      ensures suite.name in PlanOf(facts, [path], false).targets
              <==> || !RuntimeMapped(facts, path)
                   || Links(repo, manifest, suite.name, path)
                   || suite.name in facts.smokeTargets
                   || NobodyLinks(facts, repo, manifest, path)
    {
      LoneRuntimeFileExactly(facts, repo, manifest, path, suite.name);
    }
  }

  lemma LinkedIsTarget(facts: Facts, repo: Repo, manifest: RuntimeManifest, path: string, name: string)
    requires RuntimeMapped(facts, path) && RuntimeReadFrom(facts, repo, manifest) && name in AllTargets(facts)
    ensures name in ConsumersOf(facts, facts.libs.value, Owners(facts, facts.libs.value, path))
            <==> Links(repo, manifest, name, path)
  {
    var libs := facts.libs.value;
    forall lib
      ensures lib in Owners(facts, libs, path) <==> OwnerCompiles(repo, manifest, lib, path)
    {
      MappedOwners(facts, repo, manifest, lib, path);
    }
  }

  lemma RuntimePath(facts: Facts, path: string)
    requires "src/runtime/" <= path
    ensures Classify(facts, path) == ClassifyRuntime(facts, path)
  {
    assert path[0] == 's' && "include/pops/"[0] == 'i';
  }

  // ---- Monotonicity ----

  lemma SelectedWithin(facts: Facts, changed: seq<string>)
    ensures Selected(facts, changed) <= AllTargets(facts)
  {
    assert forall p :: p in changed ==> Classify(facts, p).targets <= AllTargets(facts);
  }

  lemma PlanWithin(facts: Facts, changed: seq<string>, forceAll: bool)
    ensures PlanOf(facts, changed, forceAll).targets <= AllTargets(facts)
  {
    SelectedWithin(facts, changed);
  }

  lemma ForcedGrows(facts: Facts, a: seq<string>, b: seq<string>, forceAll: bool)
    ensures Forced(facts, a, forceAll) ==> Forced(facts, a + b, forceAll)
  {
    GatherAppend(ForcesOf(facts), a, b);
    if p :| p in a && (p in facts.broadFiles || StartsWithAny(p, facts.broadPrefixes)) {
      assert p in a + b;
    }
  }

  /** Adding changes drops a target exactly when the first ones fell back to everything, nothing forces a complete
      selection, and the added files select something short of everything. */
  lemma PlanMonotoneExactly(facts: Facts, a: seq<string>, b: seq<string>, forceAll: bool)
    ensures PlanOf(facts, a, forceAll).targets <= PlanOf(facts, a + b, forceAll).targets
            <==> !Fallback(facts, a, forceAll) || Forced(facts, a + b, forceAll) || Selected(facts, b) == {}
                 || Selected(facts, b) + Smoke(facts, a + b) == AllTargets(facts)
  {
    PlanWithin(facts, a, forceAll);
    PlanWithin(facts, a + b, forceAll);
    ForcedGrows(facts, a, b, forceAll);
    ClassifiedAppend(facts, a, b);
    if p :| p in a && Classify(facts, p).kind != TestTarget && Classify(facts, p).kind != NoImpact {
      assert p in a + b;
    }
  }

  /** The fallback needs a recognised file that selected no target. */
  lemma FallbackNeedsSilentFile(facts: Facts, a: seq<string>, forceAll: bool)
    requires Fallback(facts, a, forceAll)
    ensures exists p :: p in a && Classify(facts, p).kind != NoImpact && Classify(facts, p).targets == {}
  {
    var p :| p in a && Classify(facts, p).kind != NoImpact;
    assert forall t :: t in Classify(facts, p).targets ==> t in Selected(facts, a);
  }

  /** So the plan is monotone from any change list whose recognised files all select something. */
  lemma PlanMonotone(facts: Facts, a: seq<string>, b: seq<string>, forceAll: bool)
    requires forall p :: p in a && Classify(facts, p).kind != NoImpact ==> Classify(facts, p).targets != {}
    ensures PlanOf(facts, a, forceAll).targets <= PlanOf(facts, a + b, forceAll).targets
  {
    if Fallback(facts, a, forceAll) {
      FallbackNeedsSilentFile(facts, a, forceAll);
    }
    PlanMonotoneExactly(facts, a, b, forceAll);
  }
}
