/** The two duration catalogues of the C++ targets and their validation (scripts/ci_select_tests.py). */
module CppCatalogs {
  import opened Order
  import opened Results
  import opened ShardBinpack

  /** The metadata object of a catalogue, with the fields that have the right shape. */
  datatype Metadata = Metadata(targetCount: Option<int>, estimated: Option<seq<string>>)

  /** What reading a catalogue gives: durations unless the loader rejects a value, and metadata if the file has any. A
      missing file has no durations and no metadata. */
  datatype CatalogFile = CatalogFile(durations: Option<map<string, real>>, metadata: Option<Metadata>)

  datatype CatalogError = Rejected | Mismatch

  /** Exactly the targets, each with a positive weight, under metadata that agrees. */
  ghost predicate Exact(file: CatalogFile, targets: set<string>) {
    && file.durations.Some? && file.durations.value.Keys == targets
    && (forall t :: t in targets ==> 0.0 < file.durations.value[t])
    && file.metadata.Some? && ExactMetadata(file.metadata.value, targets)
  }

  ghost predicate ExactMetadata(metadata: Metadata, targets: set<string>) {
    && metadata.targetCount == Some(|targets|)
    && metadata.estimated.Some?
    && Sorted(metadata.estimated.value, PathLe) && Distinct(metadata.estimated.value)
    && forall t :: t in metadata.estimated.value ==> t != "" && t in targets
  }

  /** A list equals its sorted set exactly when it is sorted and free of repeats. */
  lemma SortedSetOf(names: seq<string>)
    ensures SortPaths(Dedupe(names)) == names <==> Sorted(names, PathLe) && Distinct(names)
  {
    var unique := Dedupe(names);
    SameMembers(unique, SortPaths(unique));
    PermutationDistinct(unique, SortPaths(unique));
    if Sorted(names, PathLe) && Distinct(names) {
      SameSetSameMultiset(unique, names);
      SortPathsUnique(unique, names);
    }
  }

  /** Missing, orphaned and non-positive weights. */
  method InventoryFailures(durations: map<string, real>, expected: set<string>) returns (failures: nat)
    ensures failures == 0 <==> durations.Keys == expected && forall t :: t in durations ==> 0.0 < durations[t]
  {
    var missing, orphaned := expected - durations.Keys, durations.Keys - expected;
    var nonPositive := set t | t in durations && durations[t] <= 0.0;
    failures := 0;
    if missing != {} {
      failures := failures + 1;
    }
    if orphaned != {} {
      failures := failures + 1;
    }
    if nonPositive != {} {
      failures := failures + 1;
    }
    assert missing == {} && orphaned == {} <==> durations.Keys == expected;
    assert forall t :: t in nonPositive <==> t in durations && durations[t] <= 0.0;
  }

  method MetadataFailures(metadata: Metadata, actual: set<string>) returns (failures: nat)
    ensures failures == 0 <==> ExactMetadata(metadata, actual)
  {
    failures := 0;
    if metadata.targetCount != Some(|actual|) {
      failures := failures + 1;
    }
    if metadata.estimated.None? || "" in metadata.estimated.value {
      failures := failures + 1;
      return;
    }
    SortedSetOf(metadata.estimated.value);
    if SortPaths(Dedupe(metadata.estimated.value)) != metadata.estimated.value {
      failures := failures + 1;
    } else if exists t :: t in metadata.estimated.value && t !in actual {
      failures := failures + 1;
    }
  }

  /** One catalogue's share of the failure list. */
  method CatalogFailures(file: CatalogFile, expected: set<string>) returns (failures: nat)
    requires file.durations.Some?
    ensures failures == 0 <==> Exact(file, expected)
  {
    failures := InventoryFailures(file.durations.value, expected);
    if file.metadata.None? {
      failures := failures + 1;
    } else {
      var more := MetadataFailures(file.metadata.value, file.durations.value.Keys);
      failures := failures + more;
    }
  }

  /** validate_cpp_duration_catalogs. */
  method ValidateCatalogs(targets: set<string>, build: CatalogFile, test: CatalogFile) returns (e: Option<CatalogError>)
    ensures e.None? <==> Exact(build, targets) && Exact(test, targets)
    ensures e == Some(Rejected) <==> build.durations.None? || test.durations.None?
  {
    if build.durations.None? || test.durations.None? {
      return Some(Rejected);
    }
    var inBuild := CatalogFailures(build, targets);
    var inTest := CatalogFailures(test, targets);
    if inBuild + inTest != 0 {
      return Some(Mismatch);
    }
    return None;
  }
}
