/** Planning of pull-request jobs (scripts/ci_plan.py) and the native dimension of each test
    (scripts/ci_python_dimensions.py). */
module CiPlan {
  import opened Order
  import opened Results
  import opened ShardBinpack

  const UNKNOWN_DIFF := "__unresolved_pr_change_scope__"
  const PYTHON_SHARDS := 37

  // ---- The changed files ----

  predicate TwoPaths(status: string)
    requires status != ""
  {
    status[0] == 'R' || status[0] == 'C'
  }

  /** The fields after the record that starts the list; a truncated record has fewer paths. */
  function Consumed(fields: seq<string>): (n: nat)
    requires fields != [] && fields[0] != ""
    ensures 0 < n <= |fields|
  {
    var wanted := if TwoPaths(fields[0]) then 3 else 2;
    if wanted <= |fields| then wanted else |fields|
  }

  /** Every path the records name, up to the first empty status. */
  function Named(fields: seq<string>): set<string> {
    if fields == [] || fields[0] == "" then {}
    else (set p | p in fields[1..Consumed(fields)]) + Named(fields[Consumed(fields)..])
  }

  predicate OneLine(path: string) {
    '\n' !in path && '\r' !in path
  }

  method CollectPaths(fields: seq<string>) returns (paths: seq<string>)
    ensures forall p :: p in paths <==> p in Named(fields)
  {
    paths := [];
    var index := 0;
    while index < |fields| && fields[index] != ""
      invariant index <= |fields|
      invariant forall p :: p in Named(fields) <==> p in paths || p in Named(fields[index..])
    {
      var rest := fields[index..];
      var n := Consumed(rest);
      assert rest[n..] == fields[index + n..];
      paths := paths + rest[1..n];
      index := index + n;
    }
  }

  method ChangedFiles(fields: seq<string>) returns (r: seq<string>)
    ensures (exists p :: p in Named(fields) && ('\n' in p || '\r' in p)) ==> r == ["__unresolved_pr_change_scope__"]
    ensures (forall p :: p in Named(fields) ==> '\n' !in p && '\r' !in p) ==>
              Sorted(r, PathLe) && Distinct(r) && forall p :: p in r <==> p in Named(fields)
  {
    var paths := CollectPaths(fields);
    if exists p :: p in paths && !OneLine(p) {
      return [UNKNOWN_DIFF];
    }
    var unique := Dedupe(paths);
    r := SortPaths(unique);
    SameMembers(unique, r);
    PermutationDistinct(unique, r);
  }

  /** A record of the name-status listing; renames and copies name two paths. */
  datatype Record = One(status: string, path: string) | Two(status: string, before: string, after: string)

  predicate WellFormed(record: Record) {
    record.status != "" && (record.Two? <==> record.status[0] in "RC")
  }

  function Fields(records: seq<Record>): seq<string> {
    if records == [] then [""]
    else
      (match records[0]
       case One(status, path) => [status, path]
       case Two(status, before, after) => [status, before, after]) + Fields(records[1..])
  }

  function PathsOf(record: Record): set<string> {
    if record.One? then {record.path} else {record.before, record.after}
  }

  /** Both sides of every rename and nothing else, whatever the paths look like: an empty path or one that reads like
      a status is still taken by its position. */
  lemma {:induction false} ListingReadBack(records: seq<Record>)
    requires forall r :: r in records ==> WellFormed(r)
    ensures forall p :: p in Named(Fields(records)) <==> exists r :: r in records && p in PathsOf(r)
  {
    if records != [] {
      var fields, first := Fields(records), records[0];
      assert first in records && forall r :: r in records[1..] ==> r in records;
      ListingReadBack(records[1..]);
      assert fields[Consumed(fields)..] == Fields(records[1..]);
      assert fields[1..Consumed(fields)] == if first.One? then [first.path] else [first.before, first.after];
      assert forall r :: r in records <==> r == first || r in records[1..];
      forall p
        ensures p in Named(fields) <==> exists r :: r in records && p in PathsOf(r)
      {
        assert p in Named(fields) <==> p in PathsOf(first) || p in Named(Fields(records[1..]));
      }
    }
  }

  // ---- Native dimensions ----

  datatype Contract = Contract(fallback: int, files: map<string, int>)

  datatype PlanError =
    | BadContract
    | DuplicatedSelection
    | UnsupportedDimension

  predicate Explicit(contract: Contract) {
    1 <= contract.fallback <= 3 && forall p :: p in contract.files ==> 1 <= contract.files[p] <= 3
  }

  function DimensionOf(contract: Contract, path: string): int {
    if path in contract.files then contract.files[path] else contract.fallback
  }

  /** Of the first n paths, those of one dimension, in the order given. */
  function Group(paths: seq<string>, contract: Contract, d: int, n: nat): seq<string>
    requires n <= |paths|
    decreases n
  {
    if n == 0 then []
    else Group(paths, contract, d, n - 1) + if DimensionOf(contract, paths[n - 1]) == d then [paths[n - 1]] else []
  }

  lemma {:induction false} GroupMembers(paths: seq<string>, contract: Contract, d: int, n: nat)
    requires n <= |paths|
    ensures forall p :: p in Group(paths, contract, d, n) <==> p in paths[..n] && DimensionOf(contract, p) == d
    ensures Distinct(paths) ==> Distinct(Group(paths, contract, d, n))
    decreases n
  {
    if n != 0 {
      GroupMembers(paths, contract, d, n - 1);
      assert paths[..n] == paths[..n - 1] + [paths[n - 1]];
      assert Distinct(paths) ==> paths[n - 1] !in paths[..n - 1];
    }
  }

  /** The groups after the first n paths. */
  ghost predicate Grouped(groups: map<int, seq<string>>, paths: seq<string>, contract: Contract, n: nat)
    requires n <= |paths|
  {
    && (forall d :: d in groups <==> Group(paths, contract, d, n) != [])
    && forall d :: d in groups ==> groups[d] == Group(paths, contract, d, n)
  }

  lemma GroupedStep(groups: map<int, seq<string>>, paths: seq<string>, contract: Contract, n: nat)
    requires n < |paths| && Grouped(groups, paths, contract, n)
    ensures var d := DimensionOf(contract, paths[n]);
            Grouped(groups[d := (if d in groups then groups[d] else []) + [paths[n]]], paths, contract, n + 1)
  {
    var d := DimensionOf(contract, paths[n]);
    assert d !in groups ==> Group(paths, contract, d, n) == [];
  }

  method PartitionDimensions(paths: seq<string>, contract: Contract) returns (r: Result<map<int, seq<string>>, PlanError>)
    ensures r.Ok? <==> Explicit(contract) && Distinct(paths)
    ensures Explicit(contract)
            <==> contract.fallback in {1, 2, 3} && forall p :: p in contract.files ==> contract.files[p] in {1, 2, 3}
    ensures r.Ok? ==> Grouped(r.value, paths, contract, |paths|)
    ensures r.Err? ==> r.error == if !Explicit(contract) then BadContract else DuplicatedSelection
  {
    if !Explicit(contract) {
      return Err(BadContract);
    }
    SizeOfDistinct(paths);
    if |paths| != |Members(paths)| {
      return Err(DuplicatedSelection);
    }
    var groups := GroupByDimension(paths, contract);
    return Ok(groups);
  }

  method GroupByDimension(paths: seq<string>, contract: Contract) returns (groups: map<int, seq<string>>)
    ensures Grouped(groups, paths, contract, |paths|)
  {
    groups := map[];
    for k := 0 to |paths|
      invariant Grouped(groups, paths, contract, k)
    {
      GroupedStep(groups, paths, contract, k);
      var d := DimensionOf(contract, paths[k]);
      groups := groups[d := (if d in groups then groups[d] else []) + [paths[k]]];
    }
  }

  /** The dimension declared for the path itself, or the fallback for a path that the contract does not name. */
  ghost predicate Declared(contract: Contract, path: string, d: int) {
    || (path in contract.files && contract.files[path] == d)
    || (path !in contract.files && contract.fallback == d)
  }

  /** Each path is in the group of the dimension declared for it, once, and in no other; no group is empty. */
  ghost predicate Separated(groups: map<int, seq<string>>, paths: seq<string>, contract: Contract) {
    && (forall d :: d in groups ==> groups[d] != [] && Distinct(groups[d]) && HoldsOnly(groups[d], paths, contract, d))
    && forall f, d :: f in paths && Declared(contract, f, d) ==> d in groups && f in groups[d]
  }

  ghost predicate HoldsOnly(group: seq<string>, paths: seq<string>, contract: Contract, d: int) {
    forall f :: f in group ==> f in paths && Declared(contract, f, d)
  }

  lemma GroupsSeparated(groups: map<int, seq<string>>, paths: seq<string>, contract: Contract)
    requires Grouped(groups, paths, contract, |paths|) && Distinct(paths)
    ensures Separated(groups, paths, contract)
  {
    assert paths[..|paths|] == paths;
    forall d | d in groups
      ensures Distinct(groups[d]) && HoldsOnly(groups[d], paths, contract, d)
    {
      GroupMembers(paths, contract, d, |paths|);
    }
    forall f, d | f in paths && Declared(contract, f, d)
      ensures d in groups && f in groups[d]
    {
      GroupMembers(paths, contract, d, |paths|);
      assert f in Group(paths, contract, d, |paths|);
    }
  }

  // ---- The job matrix ----

  function NonEmpty(shards: seq<seq<string>>, n: nat): seq<nat>
    requires n <= |shards|
  {
    if n == 0 then [] else NonEmpty(shards, n - 1) + if shards[n - 1] != [] then [n - 1] else []
  }

  /** One job for each shard with work; a single placeholder when there is none. */
  function Matrix(shards: seq<seq<string>>): seq<nat> {
    var busy := NonEmpty(shards, |shards|);
    if busy == [] then [0] else busy
  }

  lemma {:induction false} NonEmptyExact(shards: seq<seq<string>>, n: nat)
    requires n <= |shards|
    ensures forall k: nat :: k in NonEmpty(shards, n) <==> k < n && shards[k] != []
    ensures forall i, j :: 0 <= i < j < |NonEmpty(shards, n)| ==> NonEmpty(shards, n)[i] < NonEmpty(shards, n)[j]
    decreases n
  {
    if n != 0 {
      NonEmptyExact(shards, n - 1);
      var before := NonEmpty(shards, n - 1);
      forall i | 0 <= i < |before|
        ensures before[i] < n - 1
      {
        assert before[i] in before;
      }
    }
  }

  /** The matrix starts every shard that holds a test, once, and no empty one unless all are empty. */
  ghost predicate Launches(matrix: seq<nat>, shards: seq<seq<string>>) {
    && (forall k: nat :: k < |shards| && shards[k] != [] ==> k in matrix)
    && (forall i, j :: 0 <= i < j < |matrix| ==> matrix[i] < matrix[j])
    && (matrix == [0] || forall k :: k in matrix ==> k < |shards| && shards[k] != [])
  }

  lemma MatrixLaunches(shards: seq<seq<string>>)
    ensures Launches(Matrix(shards), shards)
  {
    NonEmptyExact(shards, |shards|);
  }

  // ---- Routing ----

  datatype Routes = Routes(shards: seq<seq<string>>, matrix: seq<nat>, compileCache: seq<string>,
                           dimensions: map<int, seq<string>>, dimensionMatrix: seq<int>)

  /** k is the one shard that holds f. */
  ghost predicate OnlyShard(shards: seq<seq<string>>, f: string, k: nat) {
    && k < |shards| && f in shards[k]
    && forall j: nat :: j < |shards| && f in shards[j] ==> j == k
  }

  /** The launched shards hold every wanted test exactly once and nothing else. */
  ghost predicate ShardedOnce(shards: seq<seq<string>>, matrix: seq<nat>, wanted: seq<string>) {
    && Covers(shards, wanted) && Launches(matrix, shards)
    && forall f :: f in wanted ==> exists k: nat :: OnlyShard(shards, f, k) && k in matrix
  }

  /** Every selected test goes to one launched shard or to the compile-cache job, and to one dimension; nothing else
      goes anywhere. */
  ghost predicate Routed(selected: seq<string>, excluded: seq<string>, contract: Contract, routes: Routes) {
    && ShardedOnce(routes.shards, routes.matrix, Kept(selected, excluded))
    && IsCompileCache(selected, excluded, routes.compileCache)
    && Separated(routes.dimensions, selected, contract)
    && Downloads(routes.dimensionMatrix, routes.dimensions)
  }

  /** The packages downloaded are those of the groups, in increasing order, or that of dimension 2 without any group. */
  ghost predicate Downloads(matrix: seq<int>, groups: map<int, seq<string>>) {
    && (forall i, j :: 0 <= i < j < |matrix| ==> matrix[i] < matrix[j])
    && (forall d :: d in groups ==> d in matrix)
    && forall d :: d in matrix ==> d in groups || (groups == map[] && d == 2)
  }

  ghost predicate NeedsDimension(paths: seq<string>, contract: Contract, d: int) {
    exists f :: f in paths && Declared(contract, f, d)
  }

  ghost predicate IsCompileCache(selected: seq<string>, excluded: seq<string>, cached: seq<string>) {
    Distinct(cached) && Sorted(cached, PathLe) && forall f :: f in cached <==> f in selected && f in excluded
  }

  lemma OneShard(shards: seq<seq<string>>, wanted: seq<string>, matrix: seq<nat>, f: string)
    requires Covers(shards, wanted) && Launches(matrix, shards) && f in wanted
    ensures exists k: nat :: OnlyShard(shards, f, k) && k in matrix
  {
    CoverMembers(shards, wanted, ShardOf(shards, f), f);
    forall j: nat | j < |shards| && f in shards[j]
      ensures j == ShardOf(shards, f)
    {
      CoverMembers(shards, wanted, j, f);
    }
    assert OnlyShard(shards, f, ShardOf(shards, f));
  }

  lemma ShardsOnce(shards: seq<seq<string>>, wanted: seq<string>)
    requires Covers(shards, wanted)
    ensures ShardedOnce(shards, Matrix(shards), wanted)
  {
    MatrixLaunches(shards);
    forall f | f in wanted
      ensures exists k: nat :: OnlyShard(shards, f, k) && k in Matrix(shards)
    {
      OneShard(shards, wanted, Matrix(shards), f);
    }
  }

  /** A dimension outside the packages exists exactly when some selected test needs it. */
  lemma OutsideDimensions(groups: map<int, seq<string>>, paths: seq<string>, contract: Contract)
    requires Separated(groups, paths, contract) && Explicit(contract)
    ensures groups.Keys - {1, 2} == {} <==> !NeedsDimension(paths, contract, 3)
    ensures groups.Keys - {1, 2} == {} ==> Downloads(DimensionMatrix(groups), groups)
  {
    var outside := groups.Keys - {1, 2};
    if d :| d in outside {
      var f := groups[d][0];
      assert HoldsOnly(groups[d], paths, contract, d) && f in groups[d];
      assert f in paths && Declared(contract, f, 3);
    } else {
      forall f | f in paths
        ensures !Declared(contract, f, 3)
      {
        assert 3 !in outside;
      }
      assert forall d :: d in groups ==> d !in outside;
    }
  }

  /** The selected tests of the dedicated job. */
  method CompileCache(selected: seq<string>, excluded: seq<string>) returns (r: seq<string>)
    ensures IsCompileCache(selected, excluded, r)
  {
    var cached := Dedupe(Common(selected, excluded));
    r := SortPaths(cached);
    SameMembers(cached, r);
    PermutationDistinct(cached, r);
  }

  /** The ordinary tests packed and checked. */
  method PackChecked(selected: seq<string>, excluded: seq<string>, durations: Durations)
    returns (shards: seq<seq<string>>)
    ensures shards == LptShards(Kept(selected, excluded), PYTHON_SHARDS, Weigh(durations))
    ensures ShardedOnce(shards, Matrix(shards), Kept(selected, excluded))
  {
    var ordinary := Kept(selected, excluded);
    var packed := AssignShards(ordinary, PYTHON_SHARDS, durations);
    shards := packed.value;
    LptCovers(ordinary, PYTHON_SHARDS, Weigh(durations));
    CheckedShards(ordinary, shards, excluded);
    ShardsOnce(shards, ordinary);
    var verdict := VerifyPartition(ordinary, shards, excluded);
    assert verdict.Ok?;  // the check cannot trip here
  }

  lemma CheckedShards(ordinary: seq<string>, shards: seq<seq<string>>, excluded: seq<string>)
    requires Covers(shards, ordinary) && forall f :: f in ordinary ==> f !in excluded
    ensures Covers(shards, Kept(ordinary, excluded))
  {
    assert forall f :: f in Kept(ordinary, excluded) <==> f in ordinary;
  }

  /** The routing part of make_plan. */
  method RouteTests(selected: seq<string>, excluded: seq<string>, durations: Durations, contract: Contract)
    returns (r: Result<Routes, PlanError>)
    ensures r.Ok? <==>
              && Explicit(contract) && Distinct(selected)
              && !NeedsDimension(selected, contract, 3)
    ensures r.Err? ==> r.error == if !Explicit(contract) then BadContract
                                  else if !Distinct(selected) then DuplicatedSelection else UnsupportedDimension
    ensures r.Ok? ==> Routed(selected, excluded, contract, r.value)
    // Shard k is the list that the runner of job k computes for itself.
    ensures r.Ok? ==> r.value.shards == LptShards(Kept(selected, excluded), 37, Weigh(durations))
  {
    var shards := PackChecked(selected, excluded, durations);
    var compileCache := CompileCache(selected, excluded);
    var dimensions := PartitionDimensions(selected, contract);
    if dimensions.Err? {
      return Err(dimensions.error);
    }
    var groups := dimensions.value;
    GroupsSeparated(groups, selected, contract);
    OutsideDimensions(groups, selected, contract);
    if groups.Keys - {1, 2} != {} {
      return Err(UnsupportedDimension);
    }
    return Ok(Routes(shards, Matrix(shards), compileCache, groups, DimensionMatrix(groups)));
  }

  function Common(selected: seq<string>, excluded: seq<string>): (r: seq<string>)
    ensures forall f :: f in r <==> f in selected && f in excluded
  {
    if selected == [] then []
    else (if selected[0] in excluded then [selected[0]] else []) + Common(selected[1..], excluded)
  }

  /** The native packages the jobs download. */
  function DimensionMatrix(groups: map<int, seq<string>>): (m: seq<int>)
    ensures forall d :: d in groups && 1 <= d <= 2 ==> d in m
    ensures forall d :: d in m ==> d in groups || (1 !in groups && 2 !in groups && d == 2)
    ensures forall i, j :: 0 <= i < j < |m| ==> m[i] < m[j]
  {
    var present := (if 1 in groups then [1] else []) + (if 2 in groups then [2] else []);
    if present == [] then [2] else present
  }
}
