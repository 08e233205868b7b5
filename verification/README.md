# Verified model of the CI planner, the weighted schedulers, task migration and the native-variant store

This project models the algorithms that the repository's continuous integration and benchmark code rely on, and proves
what they are for:

- **The weighted shard scheduler** (`Greedy`, `ShardBinpack`, `CppShards`, `Iteration`, `CiPlan`). Test files are packed
  longest-first onto the least-loaded shard; C++ targets are then improved by bounded exchanges; a run-time check
  compares the shards with their input; the plan turns them into a job matrix. Proved: Graham's 4/3 bound against every
  other assignment, exact cover, determinism under every input order, strict improvement and local optimality of the
  refinement, and exact routing of every selected test.
- **The C++ twin of the scheduler and the MPI migration built on it** (`HeteroTasks`, `Migration`). Proved for every
  communicator size: load bounds, improvement over round-robin ownership, exact delivery and conservation of the
  migrated bytes, and 32-bit safety of every count, displacement and kernel-work product.
- **Dependency closures and C++ test selection** (`Reach`, `ImportClosure`, `IncludeGraph`, `RuntimeConsumers`,
  `CppCatalogs`, `CppImpact`, `CppPlan`, `CppRuns`, `CppExamples`). Work lists and the chaotic consumer iteration equal
  reachability, whatever order they visit things in; with unique suite names a suite that compiles a changed header, or
  links a library that compiles a changed runtime file, is run by exactly one job; selections compose over change lists.
- **The C++ source masker** (`CodeMask`): a lexer for comments, raw strings and quoted literals that masks in place.
- **The native-variant store** (`NativeVariants`, `NativeSigning`, `NativePreserve`): update, sign, snapshot and restore
  as methods over one mutable manifest and its leaf files, with authentication as the invariant.
- **Benchmark statistics and JSON strings** (`RobustStats`, `JsonStrings`).

`Order`, `Sums` and `Results` hold shared notions: total orders and the sort they determine, sums over lists, optional
results and errors.

Loads, durations and samples are exact reals, the `1.0e-9` tolerance is the constant `CppShards.TOLERANCE`. Files, graphs,
hashes, extension loaders, the signing tool and the MPI collectives are values or functions passed in.

Some proofs close a definition behind a quantifier whose trigger is a marker predicate (`Markers.Opened`): the
definition is looked at only in the lemmas that assert the marker.

## Findings

- A change list whose recognised files select no target falls back to every target, and adding a file that selects
  something makes that plan smaller again. `CppPlan.PlanMonotoneExactly` gives the exact condition,
  `CppPlan.PlanMonotone` the monotone case, and `CppExamples.PlanCanShrink` an instance with the repository's own path
  tables: a new adapter outside `python/bindings/core/` runs every suite, with an edited test beside it two.
- Two updates of different dimensions do not always commute: the first refuses to keep a stale row that the second would
  replace. `NativeVariants.OrdersLeaveSameDisk` says exactly when the two orders leave the same store, refused updates
  included, and `NativeVariants.UpdatesNeedNotCommute` gives a store on which they do not; whenever both updates succeed
  in both orders they publish the same manifest (`NativeVariants.UpdatesCommute`).
- Suites are keyed by name when their include closures are collected, so of several suites with one name only the last
  one's closure counts, and a suite that compiles a changed header can be missed. A complete selection with a repeated
  name is refused when it is sharded (`CppRuns.RunCpp`). `CppPlan.ShadowedSuiteExactly` gives the exact conditions of
  both for a lone header, `CppExamples.ShadowedSuiteIsLost` a checkout on which it happens, and
  `CppPlan.ChangedHeaderIsCoveredByUniqueNames` the guarantee for manifests with unique names.
- `source_closure` contains the header-level transitive closure of a source exactly when every header of that closure is
  included under the name it resolves to (`IncludeGraph.SourceClosureCoversHeaders`). Of a header included through `..`
  only the spelling is lost (`IncludeGraph.DetourIsLost`): its file is there under the resolved name
  (`IncludeGraph.ResolvedHeader`), so no suite is missed for that.
- A suite is not selected for a change of a private runtime header that its own sources include: only the libraries'
  sources are searched for it. Such a suite runs if it links a library that compiles the header, if it is a smoke target,
  if no suite links one, or if the header is mapped to no library; otherwise it is missed
  (`CppPlan.LoneRuntimeFileExactly`). `CppPlan.IncludersCoveredExactly` says exactly when no suite is missed, and
  `CppExamples.UnlinkedIncluderIsMissed` gives a checkout on which one is.
- Every rank's candidate load is at most 34 + 102/R for R ranks, hence at most 85 from two ranks on, against at least 128
  on rank 0 under round-robin ownership.

## Model

| member | source | states |
|---|---|---|
| `Greedy.Least` | scripts/ci_shard_binpack.py:157-160 | the receiving shard is the first one of least load |
| `Greedy.LoadsConserveWeight` | scripts/ci_shard_binpack.py:155-161 | packing neither gains nor loses weight |
| `Greedy.ReceiverBelowMean` | scripts/ci_shard_binpack.py:157-161 | the shard that receives a job lies below the mean of what is already placed |
| `Greedy.LoadNearMean` | scripts/ci_shard_binpack.py:155-161 | over a whole run m L <= total + (m - 1) times the heaviest job |
| `Greedy.LargeJobFits` | scripts/ci_shard_binpack.py:149-161 | longest first: a job heavier than a third of any achievable bound still fits below it (counting argument) |
| `Greedy.ListSchedulingBound` | scripts/ci_shard_binpack.py:155-161 | in any job order m L <= (2m - 1) M against every assignment with largest load M |
| `Greedy.LongestFirstBound` | scripts/ci_shard_binpack.py:149-161 | longest first 3 m L <= (4m - 1) M against every assignment with largest load M |
| `Greedy.HeadsOpenShards` | scripts/ci_shard_binpack.py:155-161 | while shards are empty, job i opens shard i |
| `Greedy.ShardOpensAtItsRank` | scripts/ci_shard_binpack.py:155-161 | job i never lands on a shard later than its own rank |
| `ShardBinpack.MedianOfPermutation` | scripts/ci_shard_binpack.py:102-111 | the median does not see the order of its arguments |
| `ShardBinpack.MedianBetween` | scripts/ci_shard_binpack.py:102-111 | the median lies inside every interval that holds the values |
| `ShardBinpack.WeightsPositive` | scripts/ci_shard_binpack.py:114-127 | every file packs at a positive weight, whatever the duration table holds |
| `ShardBinpack.WeighExactly` | scripts/ci_shard_binpack.py:114-127 | a path with a positive entry weighs that entry; any other weighs 30 without positive entries, else their middle one or the mean of the two middle ones, told by counting |
| `ShardBinpack.MiddleHalves` | scripts/ci_shard_binpack.py:102-119 | at most half of the positive entries lie below the weight of a new file and at most half above it |
| `ShardBinpack.Ranked` | scripts/ci_shard_binpack.py:147-153 | the packing order lists each file once, heavier first, then by path |
| `ShardBinpack.RankedUnique` | scripts/ci_shard_binpack.py:147-153 | that order is the only one for a set of files |
| `ShardBinpack.AssignShards` | scripts/ci_shard_binpack.py:130-164 | the loop over mutable shards and loads computes the greedy packing under these weights, and refuses a total that is not positive |
| `ShardBinpack.PackOrdered` | scripts/ci_shard_binpack.py:155-161 | the two lists updated in step are the bins and loads of the greedy owner sequence |
| `ShardBinpack.LptCovers` | scripts/ci_shard_binpack.py:140-143 | no file is dropped, duplicated or invented, and every shard comes out sorted |
| `ShardBinpack.LptDeterministic` | scripts/ci_shard_binpack.py:137-140 | the shards depend on the set of files alone |
| `ShardBinpack.LptSameWeights` | scripts/ci_shard_binpack.py:130-164 | only the weights of the packed files matter |
| `ShardBinpack.LptWithinFourThirds` | scripts/ci_shard_binpack.py:130-164 | no shard exceeds (4m - 1) / 3m of the largest load of any other exact partition of the files |
| `ShardBinpack.ShardHead` | scripts/ci_shard_binpack.py:149-161 | the k-th ranked file opens shard k, and no file of shard k is heavier |
| `ShardBinpack.SubsetRanksLower` | scripts/ci_pytest_timings.py:34-38 | the i-th heaviest file of a subset is no heavier than the i-th heaviest of the whole |
| `ShardBinpack.BudgetHoldsForSubsets` | scripts/ci_pytest_timings.py:34-38 | packing any subset of the suite, shard k holds no file heavier than the suite's k-th |
| `ShardBinpack.VerifyPartition` | scripts/ci_shard_binpack.py:167-202 | returns normally exactly when the shards hold each input file that is not excluded once and nothing else; what each error means |
| `ShardBinpack.TallyShards` | scripts/ci_shard_binpack.py:182-188 | `seen` and `duplicates` are the files met at least once and at least twice |
| `ShardBinpack.ShardFiles` | scripts/ci_shard_binpack.py:205-226 | a valid index gets its shard of the packing; the built-in check never trips |
| `ShardBinpack.CoverMembers` | scripts/ci_shard_binpack.py:174-177 | in an exact partition each file is in one shard, once |
| `CppShards.BundlesComplete` | scripts/ci_select_tests.py:917-917 | the offered return bundles are nothing, each target and each ordered pair |
| `CppShards.BestUnique` | scripts/ci_select_tests.py:934-940 | the candidate tuple has at most one minimum |
| `CppShards.CandidatePreferred` | scripts/ci_select_tests.py:934-940 | the order of the candidate tuples is the order of the loads that the exchanges leave: smaller maximum, then from large to small, then destination, target and bundle |
| `CppShards.BestIsPreferred` | scripts/ci_select_tests.py:911-942 | the chosen exchange leaves a maximum no larger than any other one-for-0, 1 or 2 exchange, and wins every tie |
| `CppShards.Consider` | scripts/ci_select_tests.py:923-940 | one pass of the innermost loop keeps the least accepted candidate among those tried |
| `CppShards.BestExchange` | scripts/ci_select_tests.py:908-942 | the triple loop finds the one best exchange, or none exactly when none is acceptable |
| `CppShards.Exchange` | scripts/ci_select_tests.py:943-950 | removing, appending and sorting realise the exchange on both shards |
| `CppShards.AppliedLoads` | scripts/ci_select_tests.py:926-928 | the loads after an exchange are the candidate loads it was chosen by |
| `CppShards.AppliedContent` | scripts/ci_select_tests.py:943-950 | an exchange moves no target in or out of the partition |
| `CppShards.StepImproves` | scripts/ci_select_tests.py:930-950 | every accepted exchange keeps an exact, sorted partition and lowers the largest load by more than the tolerance |
| `CppShards.StepPrefers` | scripts/ci_select_tests.py:911-950 | each exchange made is preferred to every other one |
| `CppShards.StopsExactlyWhenLocallyOptimal` | scripts/ci_select_tests.py:911-942 | the search stops exactly when no one-for-0, 1 or 2 exchange out of the heaviest shard gains more than the tolerance |
| `CppShards.Refine` | scripts/ci_select_tests.py:896-951 | the capped loop is the bounded iteration of the best exchange |
| `CppShards.RefineBy` | scripts/ci_select_tests.py:907-951 | as many exchanges as targets, stopping at the first state without one |
| `CppShards.RunKeeps` | scripts/ci_select_tests.py:903-905 | a whole run keeps the targets and the sorting and never raises the largest load |
| `CppShards.OptimalOrPaidFor` | scripts/ci_select_tests.py:904-951 | a run ends locally optimal or has lowered the largest load by one tolerance for each exchange |
| `CppShards.UncappedRunStops` | scripts/ci_select_tests.py:904-942 | without the cap the loop would still reach a state with no acceptable exchange |
| `CppShards.TableWeights` | scripts/ci_select_tests.py:960-962 | the weight table hands the packer exactly the modelled cost of each target |
| `CppShards.CppTargetShards` | scripts/ci_select_tests.py:954-967 | each refusal exactly; otherwise the refined packing: an exact, sorted cover within 4/3 of every other partition, and the check never trips |
| `CppShards.TargetShardsCover` | scripts/ci_select_tests.py:955-967 | the returned shards are an exact, sorted partition of the targets |
| `CppShards.TargetShardsDeterministic` | scripts/ci_select_tests.py:955-967 | every order of the same targets gives the same shards |
| `CppShards.TargetShardsNearOptimal` | scripts/ci_select_tests.py:903-905 | every refined shard is within 4/3 of the largest load of every exact partition |
| `CppShards.TargetShardsWithinFourThirds` | scripts/ci_select_tests.py:903-905 | the refined shards keep LPT's 4/3 bound against every other partition and never exceed LPT's own largest load |
| `Iteration.IterateKeeps` | scripts/ci_select_tests.py:907-951 | what every step keeps, a bounded run keeps |
| `Iteration.IterationPays` | scripts/ci_select_tests.py:907-951 | a run that has not stopped after n steps has lowered its measure by n units |
| `Iteration.IterationStops` | scripts/ci_select_tests.py:907-951 | a measure that falls by a unit a step ends every run |
| `HeteroTasks.RoundRobinIsRemainder` | benchmarks/adc757/heterogeneous_numerics.cpp:341-341 | counting round and round is the remainder |
| `HeteroTasks.BaselineTasks` | benchmarks/adc757/heterogeneous_numerics.cpp:337-344 | builds eight numbered tasks a rank with their weights and round-robin owners |
| `HeteroTasks.ScheduleIsPermutation` | benchmarks/adc757/heterogeneous_numerics.cpp:346-351 | the stable order visits every task once |
| `HeteroTasks.ScheduleOrder` | benchmarks/adc757/heterogeneous_numerics.cpp:346-351 | a stands before b exactly if it is heavier, or equally heavy with a lower number |
| `HeteroTasks.CandidateWithinFourThirds` | benchmarks/adc757/heterogeneous_numerics.cpp:336-360 | 3R L <= (4R - 1) M for every rank's candidate load L against any other assignment of the tasks with largest load M |
| `HeteroTasks.MakeTasks` | benchmarks/adc757/heterogeneous_numerics.cpp:336-360 | the tasks carry the weights, the round-robin owners and the greedy candidate owners, within 4/3 of every other assignment |
| `HeteroTasks.AssignCandidates` | benchmarks/adc757/heterogeneous_numerics.cpp:352-358 | the scheduling loop over integer loads gives the greedy owners |
| `HeteroTasks.OwnerLoads` | benchmarks/adc757/heterogeneous_numerics.cpp:362-369 | the loop adds up each owner's weights for either route |
| `HeteroTasks.OwnersInRange` | benchmarks/adc757/heterogeneous_numerics.cpp:341-356 | both owners of every task are ranks of the communicator |
| `HeteroTasks.CandidateLoadIsGreedy` | benchmarks/adc757/heterogeneous_numerics.cpp:352-369 | the candidate load of an owner is the load the greedy loop gave it |
| `HeteroTasks.EightEach` | benchmarks/adc757/heterogeneous_numerics.cpp:337-341 | round-robin ownership gives every rank eight tasks |
| `HeteroTasks.BaselineLoads` | benchmarks/adc757/heterogeneous_numerics.cpp:341-342 | rank 0 carries 128 to 144, every other rank 8 to 24 |
| `HeteroTasks.TotalByCount` | benchmarks/adc757/heterogeneous_numerics.cpp:340-344 | the exact total weight of the first n tasks |
| `HeteroTasks.CandidateLoadBound` | benchmarks/adc757/heterogeneous_numerics.cpp:346-358 | R L <= 34 R + 102 for the candidate load L of every rank of R |
| `HeteroTasks.CandidateBelowBaseline` | benchmarks/adc757/heterogeneous_numerics.cpp:336-369 | from two ranks on every candidate load is at most 85, below rank 0's baseline load |
| `HeteroTasks.SomeTaskMovesIffParallel` | benchmarks/adc757/heterogeneous_numerics.cpp:336-360 | some task changes owner exactly when there is more than one rank |
| `HeteroTasks.LoadsConserveWeight` | benchmarks/adc757/heterogeneous_numerics.cpp:362-369 | the owner loads of either route add up to the total weight |
| `HeteroTasks.RouteTotal` | benchmarks/adc757/heterogeneous_numerics.cpp:362-372 | both routes carry the same total |
| `HeteroTasks.ImbalanceDrops` | benchmarks/adc757/heterogeneous_numerics.cpp:371-375 | from two ranks on the imbalance ratio of the candidate route is strictly smaller |
| `HeteroTasks.ImbalanceExactly` | benchmarks/adc757/heterogeneous_numerics.cpp:371-375 | the ratio is that of the largest load to the mean, at least 1, and 1 exactly for equal loads |
| `HeteroTasks.CheckedExactly` | benchmarks/adc757/heterogeneous_numerics.cpp:493-497 | the division check refuses exactly the products beyond a 32-bit int |
| `HeteroTasks.KernelWorkFits` | benchmarks/adc757/heterogeneous_numerics.cpp:493-497 | within the option caps the kernel work of every load of either route fits a 32-bit int |
| `HeteroTasks.SplitCandidateLoad` | benchmarks/adc757/heterogeneous_numerics.cpp:479-491 | the two lanes are the greedy packing of the rank's weights, heaviest first |
| `HeteroTasks.LanesConserveWeight` | benchmarks/adc757/heterogeneous_numerics.cpp:479-491 | the lanes together carry the rank's candidate load |
| `HeteroTasks.LanesWithinSevenSixths` | benchmarks/adc757/heterogeneous_numerics.cpp:479-491 | neither lane exceeds 7/6 of the larger lane of any other split of the rank's tasks |
| `Migration.MigrationPlan.CountSends` | benchmarks/adc757/heterogeneous_numerics.cpp:384-393 | counts bytes for each destination, refusing a payload or a count beyond int |
| `Migration.MigrationPlan.AcceptCounts` | benchmarks/adc757/heterogeneous_numerics.cpp:394-396 | after the all-to-all entry s is what rank s counted for this rank |
| `Migration.ReceivedRowIsTransposed` | benchmarks/adc757/heterogeneous_numerics.cpp:394-396 | the received counts are a column of the matrix of what all ranks counted |
| `Migration.MigrationPlan.Displace` | benchmarks/adc757/heterogeneous_numerics.cpp:397-408 | displacements are prefix sums, and the buffers have exactly the total sizes |
| `Migration.MigrationPlan.Pack` | benchmarks/adc757/heterogeneous_numerics.cpp:410-418 | the moving cursors fill the whole send buffer with the blocks of each destination, in task order |
| `Migration.PackingStep` | benchmarks/adc757/heterogeneous_numerics.cpp:411-418 | a cursor and the block it writes stay inside the destination's segment |
| `Migration.PackingEnd` | benchmarks/adc757/heterogeneous_numerics.cpp:410-418 | every cursor ends at the next displacement and every byte has been written |
| `Migration.CursorStaysInside` | benchmarks/adc757/heterogeneous_numerics.cpp:411-418 | the next block of a destination fits before the next displacement |
| `Migration.FilledStep` | benchmarks/adc757/heterogeneous_numerics.cpp:411-418 | writing one block extends one segment and leaves all others |
| `Migration.FilledCompletely` | benchmarks/adc757/heterogeneous_numerics.cpp:410-418 | once all tasks are packed the segments are the buffer |
| `Migration.MigrationPlan.Migrate` | benchmarks/adc757/heterogeneous_numerics.cpp:426-434 | each source's segment lands at its receive displacement |
| `Migration.ExchangeDelivers` | benchmarks/adc757/heterogeneous_numerics.cpp:426-434 | the exchange turns the packed send buffers into the lanes towards each rank |
| `Migration.PreparePlan` | benchmarks/adc757/heterogeneous_numerics.cpp:394-418 | buffer, counts and displacements end as the rank's part of the world the others receive from |
| `Migration.RunRank` | benchmarks/adc757/heterogeneous_numerics.cpp:377-434 | both refusals exactly; otherwise the rank's part of the world, and the lanes of all sources received in rank order |
| `Migration.MigrateScheduled` | benchmarks/adc757/heterogeneous_numerics.cpp:377-434 | on two or more ranks scheduled tasks within the option cap always migrate |
| `Migration.MovedBlockArrives` | benchmarks/adc757/heterogeneous_numerics.cpp:411-434 | the block of every moved task stands on its candidate owner, behind lower ranks and earlier tasks, and each of its bytes is one more than the task's number modulo 251 |
| `Migration.ArrivingBlocksTellTasksApart` | benchmarks/adc757/heterogeneous_numerics.cpp:411-434 | the blocks that arrive for two tasks are equal exactly when their numbers agree modulo 251 |
| `Migration.MigrationConserves` | benchmarks/adc757/heterogeneous_numerics.cpp:438-442 | what is received anywhere is a permutation of what is sent, so the checksum error is zero |
| `Migration.LengthsCountBlocks` | benchmarks/adc757/heterogeneous_numerics.cpp:387-408 | a rank sends one block for each task that leaves it and receives one for each that enters |
| `Migration.MigrationFitsInt` | benchmarks/adc757/heterogeneous_numerics.cpp:384-408 | within the option cap every count and displacement fits a 32-bit int on every communicator size |
| `Migration.NoSendOverflow` | benchmarks/adc757/heterogeneous_numerics.cpp:385-393 | within the option cap neither overflow error is raised |
| `Migration.BytesMoveIffParallel` | benchmarks/adc757/heterogeneous_numerics.cpp:420-423 | the "did not migrate any task data" error is raised exactly on a single rank (for a positive payload) |
| `Reach.ClosureExact` | scripts/ci_include_graph.py:79-94 | a closed set of reached nodes that holds the roots is exactly what the roots reach |
| `Reach.ClosureLeast` | scripts/ci_include_graph.py:82-84 | it is the least closed set that holds the roots |
| `Reach.ClosureUnion` | scripts/ci_import_closure.py:274-296 | the closure of a union of roots is the union of the closures |
| `Reach.Reverse` | scripts/ci_import_closure.py:282-285 | the reverse adjacency, built in any order, has exactly the edges turned round |
| `Reach.ReversalReaches` | scripts/ci_import_closure.py:277-280 | reaching along reversed edges is being reached |
| `Reach.SearchStep` | scripts/ci_import_closure.py:290-295 | popping a node and pushing its unmarked neighbours keeps the search invariant |
| `ImportClosure.ReverseModuleClosure` | scripts/ci_import_closure.py:274-296 | exactly the modules that transitively import a changed module of the graph |
| `ImportClosure.TestSelection.CloseCrossTest` | scripts/ci_import_closure.py:348-368 | grows the selection in place to its closure under cross-test edges in both directions |
| `ImportClosure.ImpactedTests` | scripts/ci_import_closure.py:299-345 | an error exactly when a change is off the graph; otherwise a test is selected exactly when a chain of cross-test edges joins it to a test importing an affected module |
| `ImportClosure.ImpactOfUnion` | scripts/ci_import_closure.py:299-345 | the impact of two change lists together is the union of their impacts |
| `IncludeGraph.TransitiveClosure` | scripts/ci_include_graph.py:79-94 | terminates despite repeated stack entries with exactly what the roots reach, in any pop order |
| `IncludeGraph.DependsExactly` | scripts/ci_include_graph.py:97-136 | a file depends on the headers it names and on what its quoted includes lead to: beside it, else under include/, else in a test's support directory |
| `IncludeGraph.SupportIsForTests` | scripts/ci_include_graph.py:97-136 | a file only the support directory holds is reached from a test and tried for no other source |
| `IncludeGraph.SourceDependencies` | scripts/ci_include_graph.py:97-136 | fails exactly on a missing source or a reached file that cannot be read; otherwise the files of the checkout reached by resolved includes |
| `IncludeGraph.SourceClosure` | scripts/ci_include_graph.py:144-150 | the public headers a source reaches, named relative to the include directory |
| `IncludeGraph.ResolvedHeader` | scripts/ci_include_graph.py:97-150 | a header that a source includes under any name is in its closure under the name it resolves to |
| `IncludeGraph.ClosureIsCanonical` | scripts/ci_include_graph.py:118-150 | a public header of a source closure is named as it resolves |
| `IncludeGraph.SourceClosureCoversHeaders` | scripts/ci_include_graph.py:79-150 | holds the header-level closure of the source's own includes exactly when each of those headers is included under the name it resolves to |
| `IncludeGraph.DetourIsLost` | scripts/ci_include_graph.py:79-150 | a header included through `..` is in the one closure under that name and in the other only under the name it resolves to |
| `RuntimeConsumers.PassOn` | scripts/ci_select_tests.py:694-697 | merging one library into its dependencies keeps the table sound and reports growth exactly |
| `RuntimeConsumers.SweepOnce` | scripts/ci_select_tests.py:691-697 | a pass without growth leaves a settled table |
| `RuntimeConsumers.SettledIsExact` | scripts/ci_select_tests.py:688-698 | a sound, settled table that holds the direct consumers is exact |
| `RuntimeConsumers.TransitiveConsumers` | scripts/ci_select_tests.py:688-698 | the iteration ends, for any visiting order and any cycles, with the direct consumers of every library that reaches B |
| `CppImpact.RuntimeObjectLibMap` | scripts/ci_select_tests.py:683-699 | the owner map with transitive consumers, or the error for no owners or unresolved targets |
| `CppImpact.LibraryHeaders` | scripts/ci_select_tests.py:709-712 | the header closure of every runtime owner |
| `CppImpact.CppSuiteIncludeClosures` | scripts/ci_select_tests.py:706-720 | a suite name's closure is what its last suite's sources and consumed owners reach |
| `CppImpact.ClassifyCppImpact` | scripts/ci_select_tests.py:1247-1408 | the loop computes the union of the per-file impacts, the forcing paths in order and the impact table |
| `CppImpact.HeaderImpact` | scripts/ci_select_tests.py:1300-1328 | a public header goes to the suites whose recorded closure holds it and the generated-code suites, and forces exactly when the lookup fails, the graph does not know it, or it hits none |
| `CppImpact.TestImpact` | scripts/ci_select_tests.py:1374-1386 | an edited C++ test goes to the suites that list it |
| `CppImpact.BindingImpact` | scripts/ci_select_tests.py:1358-1372 | a binding unit goes to the suites labelled for its areas, any other file there forces |
| `CppImpact.CodegenImpact` | scripts/ci_select_tests.py:1388-1397 | a codegen file goes to the suites labelled for codegen |
| `CppImpact.UnknownImpact` | scripts/ci_select_tests.py:1399-1406 | any other file has no impact if a zero-impact table names it, and forces otherwise |
| `CppImpact.ClassifiedAppend` | scripts/ci_select_tests.py:1253-1257 | the classification of a concatenation is the union of the parts' classifications |
| `CppCatalogs.ValidateCatalogs` | scripts/ci_select_tests.py:833-893 | passes exactly when both catalogues hold the targets, positive weights and agreeing metadata |
| `CppPlan.PlanCpp` | scripts/ci_select_tests.py:1418-1467 | the staged decision is the plan function; refused exactly without suites or with an inexact catalogue; a forced run, a broad file or one below a broad prefix runs every suite |
| `CppPlan.BroadSelectsAll` | scripts/ci_select_tests.py:1428-1430 | a forced run, a broad file or a file below a broad prefix runs every suite |
| `CppPlan.PlanExactly` | scripts/ci_select_tests.py:1423-1468 | mode and targets of every plan, file by file |
| `CppPlan.PlanByFile` | scripts/ci_select_tests.py:1440-1459 | the per-file pass and its two escalations |
| `CppPlan.HeaderSelectsSuite` | scripts/ci_select_tests.py:1300-1328 | a changed header in a suite's closure selects the suite or everything |
| `CppPlan.ChangedHeaderIsCovered` | scripts/ci_select_tests.py:645-1468 | a changed header that the last suite of a name compiles, itself or through runtime libraries it links, selects that name or everything |
| `CppPlan.ChangedHeaderIsCoveredByUniqueNames` | scripts/ci_select_tests.py:645-1468 | with unique names no suite that compiles a changed header is lost |
| `CppPlan.LoneFileExactly` | scripts/ci_select_tests.py:1433-1464 | exactly which targets a change of one file selects, and when it selects all |
| `CppPlan.LoneHeaderExactly` | scripts/ci_select_tests.py:1300-1328 | a lone header runs a suite exactly by its recorded closure, as generated code, as a smoke target, or because nothing is hit, when all are selected |
| `CppPlan.ShadowedSuiteExactly` | scripts/ci_select_tests.py:713-720 | in terms of the checkout, for a suite with a later namesake: refused exactly when nothing is hit, otherwise selected exactly by the namesake's closure, as generated code or as a smoke target |
| `CppExamples.ShadowedSuiteIsLost` | scripts/ci_select_tests.py:713-720 | a checkout on which a suite that compiles the changed header is not selected |
| `CppPlan.MappedOwners` | scripts/ci_select_tests.py:732-742 | the owners found for a runtime file are those that compile it |
| `CppPlan.RuntimeImpact` | scripts/ci_select_tests.py:1330-1356 | a runtime file forces exactly when it is no unit, the owner map or a lookup fails, or no owner compiles it |
| `CppPlan.ChangedRuntimeFileIsCovered` | scripts/ci_select_tests.py:723-742 | a changed runtime file, private header or source, selects every suite that links an owner compiling it, or everything |
| `CppPlan.LoneRuntimeFileExactly` | scripts/ci_select_tests.py:1330-1356 | a lone runtime file runs a suite exactly if the file is unmapped, the suite links an owner or is a smoke target, or nobody links one |
| `CppPlan.IncludersCoveredExactly` | scripts/ci_select_tests.py:723-742 | exactly when every suite whose own sources include a changed runtime file is selected |
| `CppExamples.UnlinkedIncluderIsMissed` | scripts/ci_select_tests.py:723-742 | a checkout on which a suite that includes the changed private header is not selected |
| `CppPlan.PlanMonotoneExactly` | scripts/ci_select_tests.py:1433-1468 | exactly when adding changes keeps every selected target |
| `CppPlan.PlanMonotone` | scripts/ci_select_tests.py:1433-1468 | monotone from every change list whose recognised files all select something |
| `CppPlan.FallbackNeedsSilentFile` | scripts/ci_select_tests.py:1453-1459 | the fallback to everything needs a recognised file that selected nothing |
| `CppRuns.ListingHolds` | scripts/ci_select_tests.py:1461-1468 | the listing holds the plan's targets and repeats one exactly when the selection is complete and a name repeats |
| `CppRuns.ListingWeighed` | scripts/ci_select_tests.py:816-823 | valid catalogues weigh every planned target |
| `CppRuns.ShardPlan` | scripts/ci_select_tests.py:1461-1484 | sharding a plan under valid catalogues refuses exactly a complete selection with a repeated name; otherwise each job gets its share of the sorted targets |
| `CppRuns.RunCpp` | scripts/ci_select_tests.py:1411-1484 | each refusal exactly; sharding refuses only repeated names; otherwise the plan, its sorted targets and this job's share; a broad change plans every suite |
| `CppRuns.JobsRunPlan` | scripts/ci_select_tests.py:1483-1484 | for any total each planned target is in exactly one job, and no other target in any |
| `CppRuns.CompilingSuiteRunsOnce` | scripts/ci_select_tests.py:645-1484 | with unique names a suite that compiles a changed header runs in exactly one job |
| `CppRuns.LinkingSuiteRunsOnce` | scripts/ci_select_tests.py:723-1484 | with unique names a suite that links an owner of a changed runtime file runs in exactly one job |
| `CppExamples.PlanCanShrink` | scripts/ci_select_tests.py:1358-1459 | with the repository's tables a new adapter alone selects every suite, with a test edit beside it two |
| `CodeMask.FindIsFirst` | scripts/run_m4_gate.py:226-240 | the searches return the first occurrence |
| `CodeMask.QuotedEndIsFirstUnescaped` | scripts/run_m4_gate.py:245-254 | a literal ends behind its first quote that an even run of backslashes precedes, or with the text |
| `CodeMask.DelimiterExactly` | scripts/run_m4_gate.py:88-88 | a raw-string delimiter is at most sixteen characters, none of them blank, a bracket or a backslash |
| `CodeMask.PiecesTile` | scripts/run_m4_gate.py:223-258 | the pieces concatenate back to the source |
| `CodeMask.RawStartExactly` | scripts/run_m4_gate.py:88-88 | the opener match is an optional prefix, R, a quote, at most sixteen delimiter characters and a bracket |
| `CodeMask.NextPieceExactly` | scripts/run_m4_gate.py:225-258 | at each position there is one piece, told by openers and first terminators without the scanner, and it is the scanner's |
| `CodeMask.OneSegmentation` | scripts/run_m4_gate.py:223-258 | a text has exactly one segmentation into such pieces |
| `CodeMask.MaskedBySegmentation` | scripts/run_m4_gate.py:213-259 | masking renders that segmentation piece by piece |
| `CodeMask.Mask` | scripts/run_m4_gate.py:218-221 | blanks a range in place and keeps its line breaks |
| `CodeMask.ScanQuoted` | scripts/run_m4_gate.py:246-254 | the escape-skipping loop finds the end of the literal |
| `CodeMask.ScanPiece` | scripts/run_m4_gate.py:225-258 | the scanner's tests, in their order, cut the next piece of the segmentation |
| `CodeMask.CppCodeOnly` | scripts/run_m4_gate.py:213-259 | the in-place masker renders the segmentation |
| `CodeMask.MaskedKeepsPositions` | scripts/run_m4_gate.py:214-214 | length and line breaks stay, every other character survives or becomes a blank |
| `CodeMask.MaskedIsClean` | scripts/run_m4_gate.py:213-259 | the output holds no quote and no comment opener |
| `CodeMask.MaskingIsIdempotent` | scripts/run_m4_gate.py:213-259 | masking the output again changes nothing |
| `CodeMask.UnchangedIffClean` | scripts/run_m4_gate.py:213-259 | exactly the texts without quotes and comment openers pass unchanged |
| `NativeVariants.PathsFollowDimensions` | scripts/write_native_variant_manifest.py:82-86 | rows with one path have one dimension |
| `NativeVariants.PathsExactly` | scripts/write_native_variant_manifest.py:66-86 | a canonical path is dim1/, dim2/ or dim3/ and _pops with one of the suffixes |
| `NativeVariants.RowsReadAreRowsWritten` | scripts/write_native_variant_manifest.py:70-94 | the loader accepts exactly the rows that the writer can write for some leaf |
| `NativeVariants.Load` | scripts/write_native_variant_manifest.py:130-165 | succeeds exactly on a valid manifest whose leaves are present and, when asked, authentic |
| `NativeVariants.PayloadAccepts` | scripts/write_native_variant_manifest.py:168-173 | rows of distinct dimensions always have a payload |
| `NativeVariants.SortedRowsUnique` | scripts/write_native_variant_manifest.py:168-173 | a payload is determined by its set of rows |
| `NativeVariants.NativeRow` | scripts/write_native_variant_manifest.py:229-294 | a row carries the digest of the leaf it was read from, for the dimension asked for |
| `NativeVariants.Store.WriteManifest` | scripts/write_native_variant_manifest.py:176-191 | all of the rows are published, or the old manifest stays |
| `NativeVariants.Store.UpdateManifest` | scripts/write_native_variant_manifest.py:297-320 | publishes the updated manifest or leaves the old one; the final full load never fails |
| `NativeVariants.UpdateExact` | scripts/write_native_variant_manifest.py:297-320 | exactly when an update succeeds; then the new row, every other row, sorted and authenticated |
| `NativeVariants.UpdateTwice` | scripts/write_native_variant_manifest.py:297-320 | exactly when two updates in a row succeed, and the rows they leave |
| `NativeVariants.UpdatesCommute` | scripts/write_native_variant_manifest.py:297-320 | both orders publish the same manifest when they succeed, and succeed alike exactly when both present rows are fresh or both stale |
| `NativeVariants.OrdersLeaveSameDisk` | scripts/write_native_variant_manifest.py:297-320 | exactly when the two orders leave the same store, refused updates included |
| `NativeVariants.UpdatesNeedNotCommute` | scripts/write_native_variant_manifest.py:311-318 | a store, recorded and then rebuilt, whose stale row makes one order refuse what the other publishes |
| `NativeSigning.Locate` | scripts/codesign_pops_extensions.py:74-121 | requested leaves only when all leaves are declared and every other row is authentic |
| `NativeSigning.LocateExactly` | scripts/codesign_pops_extensions.py:74-121 | exactly when the requested leaves are located |
| `NativeSigning.DimensionsExactly` | scripts/write_native_variant_manifest.py:54-63 | exact dimensions are distinct, at least one, and among 1, 2 and 3 |
| `NativeSigning.SignLeaves` | scripts/codesign_pops_extensions.py:173-195 | signs leaf after leaf, passing exactly when each can be sealed, and touches no other leaf |
| `NativeSigning.SignedManifest` | scripts/codesign_pops_extensions.py:196-211 | the refreshed manifest is its own payload and is authenticated |
| `NativeSigning.PublishFinalDigests` | scripts/codesign_pops_extensions.py:196-211 | replaces the requested digests and nothing else |
| `NativeSigning.CodesignImportedExtensions` | scripts/codesign_pops_extensions.py:160-216 | exactly when signing succeeds; success authenticates the store, failure keeps the manifest, other leaves are never touched |
| `NativePreserve.Snapshot` | scripts/preserve_native_variants.py:38-59 | copies an authentic store exactly, refuses any other, and does nothing without a manifest |
| `NativePreserve.RestoreWriteKeeps` | scripts/preserve_native_variants.py:94-113 | a leaf that restore writes never belongs to an installed row |
| `NativePreserve.CheckRestore` | scripts/preserve_native_variants.py:62-91 | exactly when restore goes ahead |
| `NativePreserve.CopyStep` | scripts/preserve_native_variants.py:94-115 | after each copied leaf every installed row that was authentic still is |
| `NativePreserve.CopyMissing` | scripts/preserve_native_variants.py:92-115 | the copies and the merged rows are those of the missing dimensions |
| `NativePreserve.MergeMissing` | scripts/preserve_native_variants.py:92-117 | the merged manifest is published after the last leaf, if anything was missing |
| `NativePreserve.MergeAccepted` | scripts/preserve_native_variants.py:116-117 | the merged rows never clash |
| `NativePreserve.CombinedIsUnion` | scripts/preserve_native_variants.py:92-117 | union of the dimensions with the installed row winning, authentic but for the just-built row on Darwin |
| `NativePreserve.SigningKeeps` | scripts/preserve_native_variants.py:118-120 | the final signing touches no leaf of another dimension |
| `NativePreserve.Restore` | scripts/preserve_native_variants.py:62-123 | exactly when a restore succeeds, the authenticated state it leaves, and what it keeps even when it fails |
| `NativePreserve.RestoredIsUnion` | scripts/preserve_native_variants.py:62-123 | a successful restore publishes the union, only the just-built digest being new |
| `NativePreserve.Reinstall` | scripts/build_python.sh:242-266 | snapshot, replacement and restore keep every dimension the new wheel lacks, authenticated |
| `RobustStats.QuantileBetweenNeighbours` | benchmarks/src/benchmark_support.cpp:70-78 | a quantile lies between the observations around its position, which are inside the sample |
| `RobustStats.QuantileMonotone` | benchmarks/src/benchmark_support.cpp:70-78 | a larger q never has a smaller quantile, and all stay within the sample |
| `RobustStats.HalfIsMedian` | benchmarks/src/benchmark_support.cpp:195-195 | the middle quantile is the shard packer's odd/even median |
| `RobustStats.QuantileExactly` | benchmarks/src/benchmark_support.cpp:70-78 | a quantile lies on the straight line between two consecutive observations, at q of the way from the first to the last |
| `RobustStats.TrimmedMeanBetween` | benchmarks/src/benchmark_support.cpp:206-212 | something is always kept and the mean lies between the kept extremes |
| `RobustStats.LargestIgnored` | benchmarks/src/benchmark_support.cpp:206-212 | from five observations on the size of the largest one does not matter |
| `RobustStats.SummaryOrder` | benchmarks/src/benchmark_support.cpp:183-214 | min <= p10 <= median <= p90 <= max, the extremes and the range of the deviation |
| `RobustStats.SummaryExactly` | benchmarks/src/benchmark_support.cpp:183-214 | what each statistic is of the sorted sample: p10, median, p90, the deviation and the trimmed mean |
| `RobustStats.SummaryOfPermutation` | benchmarks/src/benchmark_support.cpp:186-190 | the order of the samples does not matter |
| `RobustStats.Summarize` | benchmarks/src/benchmark_support.cpp:183-214 | refuses empty and non-finite samples, and otherwise computes the summary of the sorted sample |
| `JsonStrings.EscapeRoundTrip` | benchmarks/src/benchmark_support.cpp:232-268 | a section 7 of RFC 8259 parser reads every byte string back and stops where the string ends |
| `JsonStrings.ReaderRefusesControls` | benchmarks/src/benchmark_support.cpp:258-261 | the parser accepts no string with a raw control byte in it |
| `JsonStrings.EscapeInjective` | benchmarks/src/benchmark_support.cpp:232-268 | different byte strings never print alike, even inside longer records |
| `JsonStrings.NoRawControl` | benchmarks/src/benchmark_support.cpp:258-261 | no control byte is printed raw |
| `JsonStrings.PlainPrintsItself` | benchmarks/src/benchmark_support.cpp:236-264 | exactly the strings without quote, backslash and control byte print as they are; six bytes a byte at most |
| `JsonStrings.JsonEscape` | benchmarks/src/benchmark_support.cpp:232-268 | the loop prints a string that parses back, without raw control bytes |
| `CiPlan.CollectPaths` | scripts/ci_plan.py:38-45 | the index loop collects exactly the paths the records name |
| `CiPlan.ChangedFiles` | scripts/ci_plan.py:31-50 | sorted unique paths, or the unknown marker exactly when some path breaks a line |
| `CiPlan.ListingReadBack` | scripts/ci_plan.py:38-45 | both sides of every rename and nothing else, whatever the paths look like |
| `CiPlan.PartitionDimensions` | scripts/ci_python_dimensions.py:19-29 | groups exactly when the contract is explicit and the paths are unique |
| `CiPlan.GroupsSeparated` | scripts/ci_python_dimensions.py:26-29 | each path is in the group of its dimension, once, and in no other |
| `CiPlan.MatrixLaunches` | scripts/ci_plan.py:162-163 | every shard with work is launched once, and no empty one unless all are empty |
| `CiPlan.OutsideDimensions` | scripts/ci_plan.py:126-129 | a dimension outside the packages exists exactly when a selected test needs it |
| `CiPlan.PackChecked` | scripts/ci_plan.py:120-124 | the checked shards hold each ordinary test once, in a launched shard |
| `CiPlan.CompileCache` | scripts/ci_plan.py:120-125 | the dedicated job gets exactly the selected excluded tests |
| `CiPlan.RouteTests` | scripts/ci_plan.py:120-164 | every selected test goes to one launched shard or the compile-cache job and to one dimension; exactly when planning refuses |
| `Order.SortPathsUnique` | scripts/ci_shard_binpack.py:163-164 | the sorted listing of a set of paths is unique |
| `Order.PathLeExactly` | scripts/ci_shard_binpack.py:147-153 | one path comes before another as a proper beginning of it or by the smaller character where they first differ |
| `Sums.SumPermutation` | scripts/ci_select_tests.py:908-908 | a load does not depend on the order of its targets |

## Left out

- Floating-point rounding of loads, medians, quantiles and sums, and the exactness of `math.fsum`: exact reals are used.
- Subprocesses, git, CMake, Ninja, ctest, pip, MPI launching and the package locator: their results are parameters.
- Regular-expression scraping of CMake text and of include directives, and walking of Python syntax trees: the graphs,
  owned sources and direct consumers they yield are parameters.
- `_resolve_relative`, `_target_with_ancestors` and module names of paths: a changed path is given as foreign, unnamed or
  the name of a module.
- Reasons, explanations, printing and the files the planners write.
- The tables of broad, metadata, zero-impact and smoke paths and the label aliases are parameters of `CppImpact.Facts`;
  `CppExamples` holds the repository's own.
- Iteration order of Python sets: loops over sets take their elements in any order.
- Component classification of `scripts/ci_plan.py` (glob patterns and policy flags), architecture lanes and MPI lanes.
- JSON, temporary files, symbolic links and permissions of the manifest: a manifest is a list of rows and its atomic
  replacement is one assignment. Leaves are the regular extension files by path.
- The exit code, output and evidence of the signing tool: signing is a function of the leaf's bytes that says what it left
  and whether its checks passed.
- Other processes that change the store while it is being signed or restored: the re-checks of restore after its full
  snapshot load can then not fail, and are assertions.
- The restart and rollback probes, device kernels, stream timing and halo exchange of the benchmark.
- A failing installation, and the proof of the installed wheel between installation and restore.
- UTF-8 validity of JSON text: the reader accepts every byte from 0x80 on, like the printer.
- `Migration.MigrationPlan`: the source's constructor is modelled as an allocation followed by `CountSends`,
  `AcceptCounts`, `Displace` and `Pack`, because the collective between them needs the other ranks; the collectives are
  functions of all ranks' buffers.
- HeteroTasks.MakeTasks: task numbers and counts are unbounded integers; eight tasks a rank fit a 32-bit int up to 2^28 ranks.
- The order in which a set of sources is searched for a private header: whether an unreadable source comes before one that
  includes the header is a parameter of `CppImpact.Facts`.
- An unreadable public header in the header-level closure: the graph given to `IncludeGraph.TransitiveClosure` has been
  read.
- The text of the duration catalogues: `CppCatalogs` starts from what the loader and the metadata reader make of it.
- CodeMask.ScanPiece: white space in a raw-string delimiter is the listed set of blank characters.
