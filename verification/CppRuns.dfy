/** From a change list to one job's targets: the plan, its listing and its shards (scripts/ci_select_tests.py). */
module CppRuns {
  import opened Order
  import opened Results
  import opened ShardBinpack
  import opened IncludeGraph
  import opened CppCatalogs
  import opened CppImpact
  import opened CppPlan
  import CppShards

  datatype Run = Run(plan: Plan, targets: seq<string>, mine: seq<string>)

  datatype RunError =
    | Unplannable(reason: PlanError)
    | HalfSharding
    | InvalidShard
    | Unsharded(error: CppShards.ShardError)

  // ---- The listing of a plan ----

  /** The names of the suites, in the order of the manifest. */
  function Listed(suites: seq<Suite>): (names: seq<string>)
    ensures |names| == |suites| && forall i :: 0 <= i < |names| ==> names[i] == suites[i].name
  {
    seq(|suites|, i requires 0 <= i < |suites| => suites[i].name)
  }

  function Picked(names: seq<string>, wanted: set<string>): (r: seq<string>)
    ensures forall t :: t in r <==> t in names && t in wanted
    ensures Distinct(names) ==> Distinct(r)
  {
    if names == [] then []
    else
      var rest := Picked(names[1..], wanted);
      if names[0] in wanted then [names[0]] + rest else rest
  }

  /** The sorted targets that are sharded. A complete selection lists every suite, repeated names included. */
  function Listing(facts: Facts, plan: Plan): seq<string> {
    SortPaths(if plan.mode == All then Listed(facts.suites) else Picked(Dedupe(Listed(facts.suites)), plan.targets))
  }

  lemma ListedNames(suites: seq<Suite>)
    ensures Distinct(Listed(suites)) <==> UniqueNames(suites)
    ensures Members(Listed(suites)) == Names(suites)
  {
    var names := Listed(suites);
    forall t
      ensures t in names <==> t in Names(suites)
    {
      if t in names {
        var i :| 0 <= i < |names| && names[i] == t;
        assert suites[i] in suites;
      }
      if s :| s in suites && s.name == t {
        var i :| 0 <= i < |suites| && suites[i] == s;
        assert names[i] == t;
      }
    }
  }

  /** The listing holds the plan's targets, and repeats one exactly when the selection is complete and names repeat. */
  lemma ListingHolds(facts: Facts, changed: seq<string>, forceAll: bool)
    ensures var plan := PlanOf(facts, changed, forceAll);
            && Members(Listing(facts, plan)) == plan.targets
            && (Distinct(Listing(facts, plan)) <==> !Refused(facts, changed, forceAll))
  {
    var plan := PlanOf(facts, changed, forceAll);
    PlanWithin(facts, changed, forceAll);
    ListedNames(facts.suites);
    var listed := if plan.mode == All then Listed(facts.suites) else Picked(Dedupe(Listed(facts.suites)), plan.targets);
    SameMembers(SortPaths(listed), listed);
    SortedDistinct(listed);
  }

  /** Sorting neither adds nor removes repeats. */
  lemma SortedDistinct(s: seq<string>)
    ensures Distinct(SortPaths(s)) <==> Distinct(s)
  {
    if Distinct(s) {
      PermutationDistinct(s, SortPaths(s));
    }
    if Distinct(SortPaths(s)) {
      PermutationDistinct(SortPaths(s), s);
    }
  }

  // ---- plan_cpp to its end ----

  ghost predicate Plannable(facts: Facts, build: CatalogFile, test: CatalogFile) {
    facts.suites != [] && Exact(build, AllTargets(facts)) && Exact(test, AllTargets(facts))
  }

  /** One run in total when neither argument is given. */
  predicate ValidShard(index: Option<int>, total: Option<int>) {
    (index.None? && total.None?) || (index.Some? && total.Some? && 0 <= index.value < total.value)
  }

  /** The targets of one job. */
  ghost function Job(facts: Facts, plan: Plan, w: Weights, index: nat, total: nat): seq<string>
    requires index < total
  {
    CppShards.TargetShardsCover(Listing(facts, plan), total, w);
    CppShards.TargetShards(Listing(facts, plan), total, w)[index]
  }

  /** Sharding a plan: with valid catalogues no planned target lacks a weight, so the only refusal is of a complete
      selection with a repeated name. */
  method ShardPlan(facts: Facts, build: CatalogFile, test: CatalogFile, changed: seq<string>, forceAll: bool, plan: Plan,
                   index: nat, total: nat) returns (r: Result<Run, RunError>)
    requires Plannable(facts, build, test) && plan == PlanOf(facts, changed, forceAll) && index < total
    ensures r == Err(Unsharded(CppShards.DuplicateTargets)) <==> Refused(facts, changed, forceAll)
    ensures r.Ok? <==> !Refused(facts, changed, forceAll)
    ensures r.Ok? ==> r.value.plan == plan && ListsPlan(r.value.targets, plan)
                      && r.value.mine == Job(facts, plan, CatalogCost(build, test), index, total)
  {
    var targets := Listing(facts, plan);
    ListingHolds(facts, changed, forceAll);
    ListingWeighed(facts, build, test, changed, forceAll);
    var shards := CppShards.CppTargetShards(targets, total, build.durations.value, test.durations.value);
    if shards.Err? {
      return Err(Unsharded(shards.error));
    }
    return Ok(Run(plan, targets, shards.value[index]));
  }

  /** The plan's targets, sorted and without repeats. */
  ghost predicate ListsPlan(targets: seq<string>, plan: Plan) {
    Sorted(targets, PathLe) && Distinct(targets) && Members(targets) == plan.targets
  }

  /** plan_cpp. */
  method RunCpp(facts: Facts, build: CatalogFile, test: CatalogFile, changed: seq<string>, forceAll: bool,
                index: Option<int>, total: Option<int>) returns (r: Result<Run, RunError>)
    ensures r.Err? && r.error.Unplannable? <==> !Plannable(facts, build, test)
    ensures r == Err(HalfSharding) <==> Plannable(facts, build, test) && index.Some? != total.Some?
    ensures r == Err(InvalidShard) <==>
              Plannable(facts, build, test) && index.Some? == total.Some? && !ValidShard(index, total)
    ensures r == Err(Unsharded(CppShards.DuplicateTargets)) <==>
              Plannable(facts, build, test) && ValidShard(index, total) && Refused(facts, changed, forceAll)
    ensures r.Ok? <==> Plannable(facts, build, test) && ValidShard(index, total) && !Refused(facts, changed, forceAll)
    ensures r.Ok? && (forceAll || exists p :: p in changed && (p in facts.broadFiles || exists q :: q in facts.broadPrefixes && q <= p))
            ==> r.value.plan == Plan(All, set s | s in facts.suites :: s.name)
    ensures r.Ok? ==> r.value.plan == PlanOf(facts, changed, forceAll) && ListsPlan(r.value.targets, r.value.plan)
    ensures r.Ok? ==> r.value.mine == if index.None? then Job(facts, r.value.plan, CatalogCost(build, test), 0, 1)
                                      else Job(facts, r.value.plan, CatalogCost(build, test), index.value, total.value)
  {
    var planned := PlanCpp(facts, build, test, changed, forceAll);
    if planned.Err? {
      return Err(Unplannable(planned.error));
    }
    if index.Some? != total.Some? {
      return Err(HalfSharding);
    }
    var k, m := 0, 1;
    if index.Some? {
      k, m := index.value, total.value;
    }
    if k < 0 || k >= m {
      return Err(InvalidShard);
    }
    r := ShardPlan(facts, build, test, changed, forceAll, planned.value, k, m);
  }

  /** Modelled seconds by the two catalogues. */
  function CatalogCost(build: CatalogFile, test: CatalogFile): Weights {
    if build.durations.Some? && test.durations.Some? then CppShards.Cost(build.durations.value, test.durations.value)
    else _ => 1.0
  }

  /** Valid catalogues are positive and weigh every planned target. */
  lemma ListingWeighed(facts: Facts, build: CatalogFile, test: CatalogFile, changed: seq<string>, forceAll: bool)
    requires Plannable(facts, build, test)
    ensures CppShards.Catalog(build.durations.value) && CppShards.Catalog(test.durations.value)
    ensures forall t :: t in Listing(facts, PlanOf(facts, changed, forceAll)) ==>
              t in build.durations.value && t in test.durations.value
  {
    ListingHolds(facts, changed, forceAll);
    PlanWithin(facts, changed, forceAll);
    var listing := Listing(facts, PlanOf(facts, changed, forceAll));
    forall t | t in listing
      ensures t in AllTargets(facts)
    {
      assert t in Members(listing);
    }
  }

  // ---- Every planned target runs, once ----

  /** Exactly one of the jobs has the target. */
  ghost predicate RunsOnce(facts: Facts, plan: Plan, w: Weights, total: nat, name: string) {
    exists k: nat :: k < total && name in Job(facts, plan, w, k, total)
                     && forall j: nat :: j < total && j != k ==> name !in Job(facts, plan, w, j, total)
  }

  /** The jobs run the planned targets, each in one job, and nothing else. */
  lemma JobsRunPlan(facts: Facts, changed: seq<string>, forceAll: bool, w: Weights, total: nat, name: string)
    requires 0 < total
    ensures var plan := PlanOf(facts, changed, forceAll);
            && (name in plan.targets ==> RunsOnce(facts, plan, w, total, name))
            && (name !in plan.targets ==> forall k: nat :: k < total ==> name !in Job(facts, plan, w, k, total))
  {
    var plan := PlanOf(facts, changed, forceAll);
    var listing := Listing(facts, plan);
    var shards := CppShards.TargetShards(listing, total, w);
    ListingHolds(facts, changed, forceAll);
    CppShards.TargetShardsCover(listing, total, w);
    assert name in listing <==> name in Members(listing);
    forall k: nat | k < total
      ensures name in Job(facts, plan, w, k, total) <==> name in listing && ShardOf(shards, name) == k
      ensures name in listing ==> ShardOf(shards, name) < total
    {
      CoverMembers(shards, listing, k, name);
    }
    if name in listing {
      assert name in Job(facts, plan, w, 0, total) || ShardOf(shards, name) != 0;
      var k := ShardOf(shards, name);
      assert name in Job(facts, plan, w, k, total);
    }
  }

  /** From a changed header to the jobs: with unique names every suite that compiles it runs in exactly one job. */
  lemma CompilingSuiteRunsOnce(facts: Facts, repo: Repo, manifest: RuntimeManifest, changed: seq<string>, forceAll: bool,
                               n: string, suite: Suite, w: Weights, total: nat)
    requires ReadFrom(facts, repo, manifest) && UniqueNames(facts.suites) && 0 < total
    requires INCLUDE_PREFIX + n in changed && IsCppHeader(INCLUDE_PREFIX + n)
    requires suite in facts.suites && Compiles(repo, manifest, suite, n)
    ensures !Refused(facts, changed, forceAll)
    ensures RunsOnce(facts, PlanOf(facts, changed, forceAll), w, total, suite.name)
  {
    ChangedHeaderIsCoveredByUniqueNames(facts, repo, manifest, changed, forceAll, n);
    JobsRunPlan(facts, changed, forceAll, w, total, suite.name);
  }

  /** And with unique names every suite that links an owner of a changed runtime file does. */
  lemma LinkingSuiteRunsOnce(facts: Facts, repo: Repo, manifest: RuntimeManifest, changed: seq<string>, forceAll: bool,
                             path: string, name: string, w: Weights, total: nat)
    requires RuntimeReadFrom(facts, repo, manifest) && UniqueNames(facts.suites) && 0 < total
    requires path in changed && "src/runtime/" <= path
    requires name in AllTargets(facts) && Links(repo, manifest, name, path)
    ensures !Refused(facts, changed, forceAll)
    ensures RunsOnce(facts, PlanOf(facts, changed, forceAll), w, total, name)
  {
    ChangedRuntimeFileIsCovered(facts, repo, manifest, changed, forceAll, path, name);
    JobsRunPlan(facts, changed, forceAll, w, total, name);
  }
}
