/** Packing of test files into shards by recorded duration (scripts/ci_shard_binpack.py). */
module ShardBinpack {
  import opened Order
  import opened Results
  import opened Sums
  import Greedy

  datatype PartitionError =
    | BadShardTotal
    | BadShardIndex
    | Duplicated
    | ExcludedLeaked
    | Dropped
    | NotInInput

  /** The items of a duration table in insertion order. */
  type Durations = seq<(string, real)>

  const DEFAULT_DURATION := 30.0

  // ---- Weights ----

  function Median(values: seq<real>): (r: real)
    ensures values == [] ==> r == 0.0
  {
    var ordered := SortReals(values);
    var n := |ordered|;
    if n == 0 then 0.0
    else if n % 2 == 1 then ordered[n / 2]
    else (ordered[n / 2 - 1] + ordered[n / 2]) / 2.0
  }

  /** The median does not see the order of its arguments. */
  lemma MedianOfPermutation(a: seq<real>, b: seq<real>)
    requires multiset(a) == multiset(b)
    ensures Median(a) == Median(b)
  {
    RealOrder();
    SortedUnique(SortReals(a), SortReals(b), RealLe);
  }

  lemma MedianBetween(values: seq<real>, low: real, high: real)
    requires values != []
    requires forall v :: v in values ==> low <= v <= high
    ensures low <= Median(values) <= high
  {
    var ordered := SortReals(values);
    SameMembers(values, ordered);
    forall i | 0 <= i < |ordered|
      ensures low <= ordered[i] <= high
    {
      assert ordered[i] in ordered;
    }
  }

  function Known(durations: Durations): (known: seq<real>)
    ensures forall v :: v in known ==> 0.0 < v
  {
    if durations == [] then []
    else (if durations[0].1 > 0.0 then [durations[0].1] else []) + Known(durations[1..])
  }

  function DefaultDuration(durations: Durations): real {
    if Known(durations) == [] then DEFAULT_DURATION else Median(Known(durations))
  }

  function Lookup(durations: Durations, path: string): Option<real> {
    if durations == [] then None
    else if durations[0].0 == path then Some(durations[0].1)
    else Lookup(durations[1..], path)
  }

  function DurationFor(path: string, durations: Durations, fallback: real): real {
    match Lookup(durations, path)
    case None => fallback
    case Some(value) => if value <= 0.0 then fallback else value
  }

  type Weights = string -> real

  function Weigh(durations: Durations): Weights {
    var fallback := DefaultDuration(durations);
    path => DurationFor(path, durations, fallback)
  }

  ghost predicate Positive(w: Weights) {
    forall f :: 0.0 < w(f)
  }

  lemma LeastOfPositive(s: seq<real>) returns (low: real)
    requires forall v :: v in s ==> 0.0 < v
    ensures 0.0 < low && forall v :: v in s ==> low <= v
  {
    if s == [] {
      low := 1.0;
    } else {
      assert s[0] in s;
      assert forall v :: v in s[1..] ==> v in s;
      low := LeastOfPositive(s[1..]);
      low := if s[0] < low then s[0] else low;
      assert forall v :: v in s ==> v == s[0] || v in s[1..];
    }
  }

  lemma MostOf(s: seq<real>) returns (high: real)
    ensures forall v :: v in s ==> v <= high
  {
    if s == [] {
      high := 1.0;
    } else {
      high := MostOf(s[1..]);
      high := if high < s[0] then s[0] else high;
      assert forall v :: v in s ==> v == s[0] || v in s[1..];
    }
  }

  /** Every file packs at a positive weight, whatever the table holds. */
  lemma WeightsPositive(durations: Durations)
    ensures Positive(Weigh(durations))
  {
    var known := Known(durations);
    if known != [] {
      var low := LeastOfPositive(known);
      var high := MostOf(known);
      MedianBetween(known, low, high);
    }
  }

  // ---- Weights in terms of the table's entries ----

  /** How many entries of the table are positive and satisfy p. */
  function Tally(durations: Durations, p: real -> bool): nat {
    if durations == [] then 0
    else (if 0.0 < durations[0].1 && p(durations[0].1) then 1 else 0) + Tally(durations[1..], p)
  }

  function Any(): real -> bool { v => true }
  function Under(x: real): real -> bool { v => v < x }
  function UpTo(x: real): real -> bool { v => v <= x }
  function Over(x: real): real -> bool { v => x < v }

  /** x is the positive entry with k others before it in increasing order. */
  ghost predicate IsPositiveAt(durations: Durations, k: nat, x: real) {
    Tally(durations, Under(x)) <= k < Tally(durations, UpTo(x))
  }

  /** 30 without a positive entry, else the middle one or the mean of the two middle ones. */
  ghost predicate IsMiddle(durations: Durations, x: real) {
    var n := Tally(durations, Any());
    if n == 0 then x == 30.0
    else if n % 2 == 1 then IsPositiveAt(durations, n / 2, x)
    else exists a, b :: IsMeanAt(durations, n / 2, a, b, x)
  }

  /** x is the mean of the entries at k - 1 and k. */
  ghost predicate IsMeanAt(durations: Durations, k: int, a: real, b: real, x: real) {
    0 < k && IsPositiveAt(durations, k - 1, a) && IsPositiveAt(durations, k, b) && x == (a + b) / 2.0
  }

  ghost predicate FirstEntry(durations: Durations, path: string, i: int) {
    0 <= i < |durations| && durations[i].0 == path && forall j :: 0 <= j < i ==> durations[j].0 != path
  }

  /** A path with a positive entry weighs that entry, every other path the middle of the positive entries. */
  ghost predicate Weighs(durations: Durations, path: string, x: real) {
    if exists i :: FirstEntry(durations, path, i) && 0.0 < durations[i].1
    then exists i :: FirstEntry(durations, path, i) && x == durations[i].1
    else IsMiddle(durations, x)
  }

  function TallyOf(s: seq<real>, p: real -> bool): nat {
    if s == [] then 0 else (if p(s[0]) then 1 else 0) + TallyOf(s[1..], p)
  }

  lemma {:induction false} TallyKnown(durations: Durations, p: real -> bool)
    ensures Tally(durations, p) == TallyOf(Known(durations), p)
  {
    if durations != [] {
      TallyKnown(durations[1..], p);
      if durations[0].1 > 0.0 {
        assert Known(durations)[1..] == Known(durations[1..]);
      } else {
        assert Known(durations) == Known(durations[1..]);
      }
    }
  }

  lemma {:induction false} TallyAppend(a: seq<real>, b: seq<real>, p: real -> bool)
    ensures TallyOf(a + b, p) == TallyOf(a, p) + TallyOf(b, p)
  {
    if a == [] {
      assert a + b == b;
    } else {
      assert (a + b)[1..] == a[1..] + b;
      TallyAppend(a[1..], b, p);
    }
  }

  lemma {:induction false} TallyPermutation(a: seq<real>, b: seq<real>, p: real -> bool)
    requires multiset(a) == multiset(b)
    ensures TallyOf(a, p) == TallyOf(b, p)
  {
    SameMembers(a, b);
    if a != [] {
      assert a[0] in b;
      var i :| 0 <= i < |b| && b[i] == a[0];
      RemoveAtMultiset(b, i);
      TailMultiset(a);
      TallyPermutation(a[1..], RemoveAt(b, i), p);
      TallyAppend(b[..i], b[i + 1..], p);
      assert b == b[..i] + b[i..] && b[i..][1..] == b[i + 1..];
      TallyAppend(b[..i], b[i..], p);
    }
  }

  lemma {:induction false} TallyAll(s: seq<real>, p: real -> bool)
    requires forall i :: 0 <= i < |s| ==> p(s[i])
    ensures TallyOf(s, p) == |s|
  {
    if s != [] {
      assert p(s[0]);
      TallyAll(s[1..], p);
    }
  }

  lemma {:induction false} TallyNone(s: seq<real>, p: real -> bool)
    requires forall i :: 0 <= i < |s| ==> !p(s[i])
    ensures TallyOf(s, p) == 0
  {
    if s != [] {
      assert !p(s[0]);
      TallyNone(s[1..], p);
    }
  }

  lemma {:induction false} TallyAtMostSize(s: seq<real>, p: real -> bool)
    ensures TallyOf(s, p) <= |s|
  {
    if s != [] { TallyAtMostSize(s[1..], p); }
  }

  /** In a sorted list at most k elements are less than the k-th, and more than k are at most it. */
  lemma SortedTally(s: seq<real>, k: nat)
    requires Sorted(s, RealLe) && k < |s|
    ensures TallyOf(s, Under(s[k])) <= k < TallyOf(s, UpTo(s[k]))
  {
    var low, high := s[..k], s[k..];
    assert s == low + high;
    TallyAppend(low, high, Under(s[k]));
    TallyAppend(low, high, UpTo(s[k]));
    TallyAtMostSize(low, Under(s[k]));
    TallyAll(low, UpTo(s[k])) by {
      assert forall i :: 0 <= i < k ==> RealLe(s[i], s[k]);
    }
    TallyNone(high, Under(s[k])) by {
      assert forall i :: k < i < |s| ==> RealLe(s[k], s[i]);
    }
    assert high[0] == s[k];
  }

  lemma KnownAt(durations: Durations, k: nat)
    requires k < |Known(durations)|
    ensures IsPositiveAt(durations, k, SortReals(Known(durations))[k])
  {
    var known := Known(durations);
    var ordered := SortReals(known);
    var x := ordered[k];
    SortedTally(ordered, k);
    TallyPermutation(ordered, known, Under(x));
    TallyPermutation(ordered, known, UpTo(x));
    TallyKnown(durations, Under(x));
    TallyKnown(durations, UpTo(x));
  }

  /** What default_duration returns. */
  lemma DefaultIsMiddle(durations: Durations)
    ensures IsMiddle(durations, DefaultDuration(durations))
  {
    var known := Known(durations);
    TallyKnown(durations, Any());
    TallyAll(known, Any());
    var n := |known|;
    if n > 0 {
      KnownAt(durations, n / 2);
      if n % 2 == 0 {
        KnownAt(durations, n / 2 - 1);
        var ordered := SortReals(known);
        assert IsMeanAt(durations, n / 2, ordered[n / 2 - 1], ordered[n / 2], DefaultDuration(durations));
      }
    }
  }

  lemma {:induction false} LookupIsFirst(durations: Durations, path: string)
    ensures match Lookup(durations, path)
            case None => forall i :: 0 <= i < |durations| ==> durations[i].0 != path
            case Some(value) => exists i :: FirstEntry(durations, path, i) && durations[i].1 == value
  {
    if durations != [] {
      if durations[0].0 == path {
        assert FirstEntry(durations, path, 0);
      } else {
        LookupIsFirst(durations[1..], path);
        if i :| FirstEntry(durations[1..], path, i) && Lookup(durations, path) == Some(durations[1..][i].1) {
          assert FirstEntry(durations, path, i + 1);
        }
      }
    }
  }

  lemma FirstEntryUnique(durations: Durations, path: string, i: int, j: int)
    requires FirstEntry(durations, path, i) && FirstEntry(durations, path, j)
    ensures i == j
  {}

  /** The weight of a path, known or not. */
  lemma WeighExactly(durations: Durations, path: string)
    ensures Weighs(durations, path, Weigh(durations)(path))
  {
    LookupIsFirst(durations, path);
    DefaultIsMiddle(durations);
    var found := Lookup(durations, path);
    if found.Some? {
      var i :| FirstEntry(durations, path, i) && durations[i].1 == found.value;
      if j :| FirstEntry(durations, path, j) && 0.0 < durations[j].1 {
        FirstEntryUnique(durations, path, i, j);
      }
    }
  }

  lemma WeighsAll(durations: Durations)
    ensures forall f :: Weighs(durations, f, Weigh(durations)(f))
  {
    forall f
      ensures Weighs(durations, f, Weigh(durations)(f))
    {
      WeighExactly(durations, f);
    }
  }

  lemma {:induction false} TallyWithin(durations: Durations, p: real -> bool, q: real -> bool)
    requires forall v :: p(v) ==> q(v)
    ensures Tally(durations, p) <= Tally(durations, q)
  {
    if durations != [] { TallyWithin(durations[1..], p, q); }
  }

  lemma {:induction false} TallySplit(durations: Durations, x: real)
    ensures Tally(durations, UpTo(x)) + Tally(durations, Over(x)) == Tally(durations, Any())
  {
    if durations != [] { TallySplit(durations[1..], x); }
  }

  /** So at most half of the positive entries lie below a middle, and at most half above it. */
  lemma MiddleHalves(durations: Durations, x: real)
    requires IsMiddle(durations, x) && 0 < Tally(durations, Any())
    ensures 2 * Tally(durations, Under(x)) <= Tally(durations, Any())
    ensures 2 * Tally(durations, Over(x)) <= Tally(durations, Any())
  {
    var n := Tally(durations, Any());
    TallySplit(durations, x);
    if n % 2 == 0 {
      var a, b :| IsMeanAt(durations, n / 2, a, b, x);
      TallySplit(durations, a);
      if b < a {
        TallyWithin(durations, UpTo(b), Under(a));
      }
      TallyWithin(durations, Under(x), Under(b));
      TallyWithin(durations, Over(x), Over(a));
    }
  }

  // ---- The packing order ----

  function Dedupe(s: seq<string>): (r: seq<string>)
    ensures forall f :: f in r <==> f in s
    ensures Distinct(r)
  {
    if s == [] then []
    else if s[0] in s[1..] then Dedupe(s[1..])
    else [s[0]] + Dedupe(s[1..])
  }

  /** Heavier first, then by path. */
  predicate RankLe(w: Weights, a: string, b: string) {
    w(a) > w(b) || (w(a) == w(b) && PathLe(a, b))
  }

  function RankOrder(w: Weights): (string, string) -> bool {
    (a, b) => RankLe(w, a, b)
  }

  lemma RankTotal(w: Weights)
    ensures TotalOrder(RankOrder(w))
  {
    PathOrder();
  }

  function Ranked(files: seq<string>, w: Weights): (ordered: seq<string>)
    ensures Sorted(ordered, RankOrder(w)) && Distinct(ordered)
    ensures forall f :: f in ordered <==> f in files
  {
    RankTotal(w);
    var unique := SortPaths(Dedupe(files));
    var ordered := Sort(unique, RankOrder(w));
    SameMembers(Dedupe(files), unique);
    SameMembers(unique, ordered);
    PermutationDistinct(Dedupe(files), unique);
    PermutationDistinct(unique, ordered);
    ordered
  }

  /** The ranking depends only on the set of files. */
  lemma RankedUnique(files: seq<string>, w: Weights, ordered: seq<string>)
    requires Sorted(ordered, RankOrder(w)) && Distinct(ordered)
    requires forall f :: f in ordered <==> f in files
    ensures ordered == Ranked(files, w)
  {
    RankTotal(w);
    SameSetSameMultiset(ordered, Ranked(files, w));
    SortedUnique(ordered, Ranked(files, w), RankOrder(w));
  }

  function WeightsOf(files: seq<string>, w: Weights): (ws: seq<real>)
    ensures |ws| == |files|
    ensures forall i :: 0 <= i < |files| ==> ws[i] == w(files[i])
  {
    seq(|files|, i requires 0 <= i < |files| => w(files[i]))
  }

  // ---- Shards ----

  /** Files that the first n decisions put on shard k, in the order of placement. */
  function Bin(ordered: seq<string>, owner: seq<nat>, k: nat, n: nat): seq<string>
    requires n <= |ordered| && n <= |owner|
  {
    if n == 0 then []
    else Bin(ordered, owner, k, n - 1) + if owner[n - 1] == k then [ordered[n - 1]] else []
  }

  function Bins(ordered: seq<string>, owner: seq<nat>, m: nat, n: nat): (bins: seq<seq<string>>)
    requires n <= |ordered| && n <= |owner|
    ensures |bins| == m
    ensures forall k: nat :: k < m ==> bins[k] == Bin(ordered, owner, k, n)
  {
    seq(m, k requires 0 <= k => Bin(ordered, owner, k, n))
  }

  function SortEach(shards: seq<seq<string>>): (r: seq<seq<string>>)
    ensures |r| == |shards|
    ensures forall k :: 0 <= k < |shards| ==> r[k] == SortPaths(shards[k])
  {
    seq(|shards|, k requires 0 <= k < |shards| => SortPaths(shards[k]))
  }

  function Owners(files: seq<string>, m: nat, w: Weights): (owner: seq<nat>)
    requires 0 < m
    ensures |owner| == |Ranked(files, w)| && Greedy.Assigns(owner, m)
  {
    var ws := WeightsOf(Ranked(files, w), w);
    Greedy.Pack(ws, m, |ws|)
  }

  /** What assign_shards returns. */
  function LptShards(files: seq<string>, m: nat, w: Weights): (shards: seq<seq<string>>)
    requires 0 < m
    ensures |shards| == m
  {
    var ordered := Ranked(files, w);
    var owner := Owners(files, m, w);
    SortEach(Bins(ordered, owner, m, |ordered|))
  }

  function ShardLoad(shard: seq<string>, w: Weights): real {
    SumOf(shard, w)
  }

  /** All placements of the first n shards, with multiplicity. */
  function ContentOfFirst(shards: seq<seq<string>>, n: nat): multiset<string>
    requires n <= |shards|
  {
    if n == 0 then multiset{} else ContentOfFirst(shards, n - 1) + multiset(shards[n - 1])
  }

  function Content(shards: seq<seq<string>>): multiset<string> {
    ContentOfFirst(shards, |shards|)
  }

  /** The shards hold each wanted file exactly once, and nothing else. */
  ghost predicate Covers(shards: seq<seq<string>>, wanted: seq<string>) {
    forall f :: Content(shards)[f] == if f in wanted then 1 else 0
  }

  method AssignShards(files: seq<string>, total: int, durations: Durations)
    returns (r: Result<seq<seq<string>>, PartitionError>)
    ensures r == if total <= 0 then Err(BadShardTotal) else Ok(LptShards(files, total, Weigh(durations)))
    ensures forall f :: Weighs(durations, f, Weigh(durations)(f))
  {
    WeighsAll(durations);
    if total <= 0 {
      return Err(BadShardTotal);
    }
    var w := Weigh(durations);
    var shards := PackOrdered(Ranked(files, w), total, w);
    return Ok(SortEach(shards));
  }

  method PackOrdered(ordered: seq<string>, total: nat, w: Weights) returns (shards: seq<seq<string>>)
    requires 0 < total
    ensures var ws := WeightsOf(ordered, w);
            shards == Bins(ordered, Greedy.Pack(ws, total, |ws|), total, |ws|)
  {
    ghost var ws := WeightsOf(ordered, w);
    shards := seq(total, _ => []);
    var loads: seq<real> := seq(total, _ => 0.0);
    for n := 0 to |ordered|
      invariant PackingState(ordered, ws, total, n, shards, loads)
    {
      var target := Greedy.Least(loads);
      PackingStep(ordered, ws, total, n, shards, loads);
      shards := shards[target := shards[target] + [ordered[n]]];
      loads := loads[target := loads[target] + w(ordered[n])];
    }
  }

  /** The mutable lists of assign_shards after n files. */
  ghost predicate PackingState(ordered: seq<string>, ws: seq<real>, m: nat, n: nat,
                               shards: seq<seq<string>>, loads: seq<real>)
    requires 0 < m && n <= |ordered| == |ws|
  {
    && shards == Bins(ordered, Greedy.Pack(ws, m, n), m, n)
    && loads == Greedy.LoadsOf(ws, Greedy.Pack(ws, m, n), m, n)
  }

  lemma PackingStep(ordered: seq<string>, ws: seq<real>, m: nat, n: nat,
                    shards: seq<seq<string>>, loads: seq<real>)
    requires 0 < m && n < |ordered| == |ws|
    requires PackingState(ordered, ws, m, n, shards, loads)
    ensures var k := Greedy.Least(loads);
            PackingState(ordered, ws, m, n + 1, shards[k := shards[k] + [ordered[n]]],
                         loads[k := loads[k] + ws[n]])
  {
    var before, after := Greedy.Pack(ws, m, n), Greedy.Pack(ws, m, n + 1);
    var target := Greedy.Least(loads);
    assert after == before + [target];
    var loads' := loads[target := loads[target] + ws[n]];
    var shards' := shards[target := shards[target] + [ordered[n]]];
    forall k: nat | k < m
      ensures shards'[k] == Bin(ordered, after, k, n + 1)
      ensures loads'[k] == Greedy.Load(ws, after, k, n + 1)
    {
      BinPrefix(ordered, after, before, k, n);
      Greedy.LoadPrefix(ws, after, before, k, n);
    }
    assert loads' == Greedy.LoadsOf(ws, after, m, n + 1);
    assert shards' == Bins(ordered, after, m, n + 1);
  }

  lemma {:induction false} BinPrefix(ordered: seq<string>, a: seq<nat>, b: seq<nat>, k: nat, n: nat)
    requires n <= |ordered| && n <= |a| && n <= |b|
    requires forall i :: 0 <= i < n ==> a[i] == b[i]
    ensures Bin(ordered, a, k, n) == Bin(ordered, b, k, n)
  {
    if n > 0 { BinPrefix(ordered, a, b, k, n - 1); }
  }

  // ---- Contents of shard lists ----

  lemma {:induction false} ContentSame(a: seq<seq<string>>, b: seq<seq<string>>, n: nat)
    requires n <= |a| && n <= |b|
    requires forall k :: 0 <= k < n ==> multiset(a[k]) == multiset(b[k])
    ensures ContentOfFirst(a, n) == ContentOfFirst(b, n)
  {
    if n > 0 { ContentSame(a, b, n - 1); }
  }

  lemma {:induction false} CountReplace(shards: seq<seq<string>>, k: nat, x: seq<string>, n: nat, f: string)
    requires k < n <= |shards|
    ensures multiset(shards[k])[f] <= ContentOfFirst(shards, n)[f]
    ensures ContentOfFirst(shards[k := x], n)[f]
            == ContentOfFirst(shards, n)[f] - multiset(shards[k])[f] + multiset(x)[f]
  {
    if k == n - 1 {
      ContentSame(shards, shards[k := x], k);
    } else {
      CountReplace(shards, k, x, n - 1, f);
    }
  }

  lemma ContentUpdate(shards: seq<seq<string>>, k: nat, x: seq<string>)
    requires k < |shards|
    ensures multiset(shards[k]) <= Content(shards)
    ensures Content(shards[k := x]) == Content(shards) - multiset(shards[k]) + multiset(x)
  {
    forall f
      ensures multiset(shards[k])[f] <= Content(shards)[f]
      ensures Content(shards[k := x])[f] == Content(shards)[f] - multiset(shards[k])[f] + multiset(x)[f]
    {
      CountReplace(shards, k, x, |shards|, f);
    }
  }

  lemma {:induction false} ContentOfTwo(shards: seq<seq<string>>, j: nat, k: nat, f: string, n: nat)
    requires j < k < n <= |shards|
    ensures multiset(shards[j])[f] + multiset(shards[k])[f] <= ContentOfFirst(shards, n)[f]
  {
    if k == n - 1 {
      CountReplace(shards, j, [], k, f);
    } else {
      ContentOfTwo(shards, j, k, f, n - 1);
    }
  }

  /** Last of the first n shards that holds f. */
  function ShardOfFirst(shards: seq<seq<string>>, f: string, n: nat): (k: nat)
    requires n <= |shards|
    ensures ContentOfFirst(shards, n)[f] > 0 ==> k < n && f in shards[k]
  {
    if n == 0 then 0
    else if f in shards[n - 1] then n - 1
    else ShardOfFirst(shards, f, n - 1)
  }

  function ShardOf(shards: seq<seq<string>>, f: string): (k: nat)
    ensures Content(shards)[f] > 0 ==> k < |shards| && f in shards[k]
  {
    ShardOfFirst(shards, f, |shards|)
  }

  lemma CoverMembers(shards: seq<seq<string>>, wanted: seq<string>, k: nat, f: string)
    requires Covers(shards, wanted) && k < |shards|
    ensures f in shards[k] <==> f in wanted && ShardOf(shards, f) == k
    ensures f in wanted ==> ShardOf(shards, f) < |shards|
    ensures Distinct(shards[k])
  {
    forall g
      ensures multiset(shards[k])[g] <= 1
    {
      ContentUpdate(shards, k, []);
    }
    MultisetDistinct(shards[k]);
    ContentUpdate(shards, k, []);
    assert f in shards[k] ==> multiset(shards[k])[f] > 0;
    var o := ShardOf(shards, f);
    if f in wanted {
      assert o < |shards| && multiset(shards[o])[f] > 0;
      if o < k {
        ContentOfTwo(shards, o, k, f, |shards|);
      } else if k < o {
        ContentOfTwo(shards, k, o, f, |shards|);
      }
    }
  }

  // ---- Loads of shard lists ----

  lemma {:induction false} BinLoad(ordered: seq<string>, owner: seq<nat>, k: nat, n: nat, w: Weights)
    requires n <= |ordered| && n <= |owner|
    ensures ShardLoad(Bin(ordered, owner, k, n), w) == Greedy.Load(WeightsOf(ordered, w), owner, k, n)
  {
    if n > 0 {
      BinLoad(ordered, owner, k, n - 1, w);
      var last := if owner[n - 1] == k then [ordered[n - 1]] else [];
      SumAppend(Bin(ordered, owner, k, n - 1), last, w);
    }
  }

  lemma LptShardLoad(files: seq<string>, m: nat, w: Weights, k: nat)
    requires k < m
    ensures var ws := WeightsOf(Ranked(files, w), w);
            ShardLoad(LptShards(files, m, w)[k], w) == Greedy.Load(ws, Owners(files, m, w), k, |ws|)
  {
    var ordered := Ranked(files, w);
    var bin := Bin(ordered, Owners(files, m, w), k, |ordered|);
    SumPermutation(SortPaths(bin), bin, w);
    BinLoad(ordered, Owners(files, m, w), k, |ordered|, w);
  }

  // ---- assign_shards covers its input exactly ----

  lemma {:induction false} CountInBins(ordered: seq<string>, owner: seq<nat>, m: nat, n: nat, f: string)
    requires n <= |ordered| && n <= |owner| && Greedy.Assigns(owner, m)
    ensures Content(Bins(ordered, owner, m, n))[f] == multiset(ordered[..n])[f]
    decreases n
  {
    if n == 0 {
      ContentOfEmpty(Bins(ordered, owner, m, 0), m);
    } else {
      CountInBins(ordered, owner, m, n - 1, f);
      BinsStep(ordered, owner, m, n, f);
      PrefixCount(ordered, n, f);
    }
  }

  lemma PrefixCount(s: seq<string>, n: nat, f: string)
    requires 0 < n <= |s|
    ensures multiset(s[..n])[f] == multiset(s[..n - 1])[f] + if s[n - 1] == f then 1 else 0
  {
    assert s[..n] == s[..n - 1] + [s[n - 1]];
  }

  lemma BinsStep(ordered: seq<string>, owner: seq<nat>, m: nat, n: nat, f: string)
    requires 0 < n <= |ordered| && n <= |owner| && owner[n - 1] < m
    ensures Content(Bins(ordered, owner, m, n))[f]
            == Content(Bins(ordered, owner, m, n - 1))[f] + if ordered[n - 1] == f then 1 else 0
  {
    var before := Bins(ordered, owner, m, n - 1);
    var bin := before[owner[n - 1]];
    var after := before[owner[n - 1] := bin + [ordered[n - 1]]];
    forall k: nat | k < m
      ensures after[k] == Bin(ordered, owner, k, n)
    {
      assert before[k] == Bin(ordered, owner, k, n - 1);
    }
    assert Bins(ordered, owner, m, n) == after;
    CountReplace(before, owner[n - 1], bin + [ordered[n - 1]], m, f);
    assert multiset(bin + [ordered[n - 1]]) == multiset(bin) + multiset{ordered[n - 1]};
  }

  lemma {:induction false} ContentOfEmpty(shards: seq<seq<string>>, n: nat)
    requires n <= |shards|
    requires forall k :: 0 <= k < n ==> shards[k] == []
    ensures ContentOfFirst(shards, n) == multiset{}
  {
    if n > 0 { ContentOfEmpty(shards, n - 1); }
  }

  /** No file is dropped, duplicated or invented, and every shard comes out path-sorted. */
  lemma LptCovers(files: seq<string>, m: nat, w: Weights)
    requires 0 < m
    ensures Covers(LptShards(files, m, w), files)
    ensures forall k :: 0 <= k < m ==> Sorted(LptShards(files, m, w)[k], PathLe)
  {
    var ordered := Ranked(files, w);
    var bins := Bins(ordered, Owners(files, m, w), m, |ordered|);
    ContentSame(SortEach(bins), bins, m);
    DistinctMultiset(ordered);
    forall f
      ensures Content(LptShards(files, m, w))[f] == if f in files then 1 else 0
    {
      CountInBins(ordered, Owners(files, m, w), m, |ordered|, f);
      assert ordered[..|ordered|] == ordered;
    }
  }

  // ---- Determinism ----

  /** The shards depend on the set of files alone: input order and repeats do not matter. */
  lemma LptDeterministic(a: seq<string>, b: seq<string>, m: nat, w: Weights)
    requires 0 < m && forall f :: f in a <==> f in b
    ensures LptShards(a, m, w) == LptShards(b, m, w)
  {
    RankedUnique(b, w, Ranked(a, w));
  }

  ghost predicate SameWeights(files: seq<string>, a: Weights, b: Weights) {
    forall f :: f in files ==> a(f) == b(f)
  }

  /** Only the weights of the packed files matter. */
  lemma LptSameWeights(files: seq<string>, m: nat, a: Weights, b: Weights)
    requires 0 < m && SameWeights(files, a, b)
    ensures LptShards(files, m, a) == LptShards(files, m, b)
  {
    var ordered := Ranked(files, a);
    forall i, j | 0 <= i < j < |ordered|
      ensures RankOrder(b)(ordered[i], ordered[j])
    {
      assert ordered[i] in ordered && ordered[j] in ordered;
      assert RankOrder(a)(ordered[i], ordered[j]);
    }
    RankedUnique(files, b, ordered);
    assert WeightsOf(ordered, a) == WeightsOf(ordered, b) by {
      forall i | 0 <= i < |ordered|
        ensures WeightsOf(ordered, a)[i] == WeightsOf(ordered, b)[i]
      {
        assert ordered[i] in ordered;
      }
    }
  }

  // ---- Distance from the best partition ----

  /** The shard that another partition gives each ranked file. */
  function OwnersIn(ordered: seq<string>, shards: seq<seq<string>>): (owner: seq<nat>)
    ensures |owner| == |ordered|
    ensures forall i :: 0 <= i < |ordered| ==> owner[i] == ShardOf(shards, ordered[i])
  {
    seq(|ordered|, i requires 0 <= i < |ordered| => ShardOf(shards, ordered[i]))
  }

  lemma {:induction false} BinMembers(ordered: seq<string>, owner: seq<nat>, k: nat, n: nat)
    requires n <= |ordered| && n <= |owner| && Distinct(ordered)
    ensures forall f :: f in Bin(ordered, owner, k, n) <==> exists i :: 0 <= i < n && ordered[i] == f && owner[i] == k
    ensures Distinct(Bin(ordered, owner, k, n))
  {
    if n > 0 {
      BinMembers(ordered, owner, k, n - 1);
      assert ordered[n - 1] !in Bin(ordered, owner, k, n - 1);
      forall f
        ensures f in Bin(ordered, owner, k, n) <==> exists i :: 0 <= i < n && ordered[i] == f && owner[i] == k
      {
        if f in Bin(ordered, owner, k, n) && f !in Bin(ordered, owner, k, n - 1) {
          assert ordered[n - 1] == f && owner[n - 1] == k;
        }
      }
    }
  }

  lemma PartitionLoad(files: seq<string>, other: seq<seq<string>>, w: Weights, k: nat)
    requires Covers(other, files) && k < |other|
    ensures var ordered := Ranked(files, w);
            Greedy.Load(WeightsOf(ordered, w), OwnersIn(ordered, other), k, |ordered|) == ShardLoad(other[k], w)
  {
    var ordered := Ranked(files, w);
    var owner := OwnersIn(ordered, other);
    var bin := Bin(ordered, owner, k, |ordered|);
    BinMembers(ordered, owner, k, |ordered|);
    forall f
      ensures f in bin <==> f in other[k]
    {
      CoverMembers(other, files, k, f);
    }
    CoverMembers(other, files, k, "");
    SameSetSameMultiset(bin, other[k]);
    SumPermutation(bin, other[k], w);
    BinLoad(ordered, owner, k, |ordered|, w);
  }

  ghost predicate WithinFourThirds(m: nat, load: real, largest: real) {
    3.0 * m as real * load <= (4.0 * m as real - 1.0) * largest
  }

  /** Graham's bound: no shard exceeds (4m - 1) / 3m of the largest load of any other partition. */
  lemma LptWithinFourThirds(files: seq<string>, m: nat, w: Weights, other: seq<seq<string>>, largest: real, k: nat)
    requires Positive(w) && k < m == |other| && Covers(other, files)
    requires forall i :: 0 <= i < m ==> ShardLoad(other[i], w) <= largest
    ensures WithinFourThirds(m, ShardLoad(LptShards(files, m, w)[k], w), largest)
  {
    LptBoundSummed(files, m, w, other, largest, k);
    FourThirdsForm(m, ShardLoad(LptShards(files, m, w)[k], w), largest);
  }

  lemma LptBoundSummed(files: seq<string>, m: nat, w: Weights, other: seq<seq<string>>, largest: real, k: nat)
    requires Positive(w) && k < m == |other| && Covers(other, files)
    requires forall i :: 0 <= i < m ==> ShardLoad(other[i], w) <= largest
    ensures 3.0 * Times(m, ShardLoad(LptShards(files, m, w)[k], w)) <= 4.0 * Times(m, largest) - largest
  {
    var ordered := Ranked(files, w);
    var ws, owner := WeightsOf(ordered, w), OwnersIn(ordered, other);
    forall i: nat | i < m
      ensures Greedy.Load(ws, owner, i, |ws|) <= largest
    {
      PartitionLoad(files, other, w, i);
    }
    forall i | 0 <= i < |owner|
      ensures owner[i] < m
    {
      assert ordered[i] in ordered;
      CoverMembers(other, files, k, ordered[i]);
    }
    Greedy.LongestFirstBound(ws, owner, m, |ws|, largest, k);
    LptShardLoad(files, m, w, k);
  }

  lemma FourThirdsForm(m: nat, load: real, largest: real)
    requires 3.0 * Times(m, load) <= 4.0 * Times(m, largest) - largest
    ensures WithinFourThirds(m, load, largest)
  {
    TimesIsProduct(m, load);
    TimesIsProduct(m, largest);
    assert 3.0 * m as real * load == 3.0 * (m as real * load);
    assert (4.0 * m as real - 1.0) * largest == 4.0 * (m as real * largest) - largest;
  }

  // ---- Which file opens which shard ----

  /** The k-th ranked file opens shard k, and every file of shard k is at most as heavy. */
  lemma ShardHead(files: seq<string>, m: nat, w: Weights, k: nat, f: string)
    requires Positive(w) && k < m && f in LptShards(files, m, w)[k]
    ensures k < |Ranked(files, w)|
    ensures w(f) <= w(Ranked(files, w)[k])
    ensures Owners(files, m, w)[k] == k
  {
    var ordered := Ranked(files, w);
    var ws := WeightsOf(ordered, w);
    var i := PlacedAt(files, m, w, k, f);
    Greedy.ShardOpensAtItsRank(ws, m, i);
    Greedy.ShardOpensAtItsRank(ws, m, k);
    RankDescends(ordered, w, k, i);
  }

  lemma PlacedAt(files: seq<string>, m: nat, w: Weights, k: nat, f: string) returns (i: nat)
    requires k < m && f in LptShards(files, m, w)[k]
    ensures i < |Ranked(files, w)| && Ranked(files, w)[i] == f && Owners(files, m, w)[i] == k
  {
    var ordered, owner := Ranked(files, w), Owners(files, m, w);
    var bin := Bin(ordered, owner, k, |ordered|);
    SameMembers(SortPaths(bin), bin);
    BinMembers(ordered, owner, k, |ordered|);
    i :| 0 <= i < |ordered| && ordered[i] == f && owner[i] == k;
  }

  function Members(s: seq<string>): set<string> {
    set f | f in s
  }

  lemma {:induction false} MembersCount(s: seq<string>)
    requires Distinct(s)
    ensures |Members(s)| == |s|
  {
    if s != [] {
      var n := |s| - 1;
      MembersCount(s[..n]);
      assert Members(s) == Members(s[..n]) + {s[n]};
    }
  }

  /** A list has as many members as elements exactly when nothing repeats. */
  lemma SizeOfDistinct(s: seq<string>)
    ensures |s| == |Members(s)| <==> Distinct(s)
  {
    if Distinct(s) {
      MembersCount(s);
    } else {
      RepeatsShrink(s);
    }
  }

  lemma {:induction false} RepeatsShrink(s: seq<string>)
    ensures |Members(s)| <= |s|
    ensures !Distinct(s) ==> |Members(s)| < |s|
  {
    if s != [] {
      RepeatsShrink(s[1..]);
      assert s == [s[0]] + s[1..];
      assert Members(s) == Members(s[1..]) + {s[0]};
      if s[0] !in s[1..] && Distinct(s[1..]) {
        forall i, j | 0 <= i < j < |s|
          ensures s[i] != s[j]
        {
          assert s[j] == s[1..][j - 1];
          assert 0 < i ==> s[i] == s[1..][i - 1];
        }
      }
    }
  }

  /** The i-th heaviest file of a subset is no heavier than the i-th heaviest of the whole. */
  lemma SubsetRanksLower(part: seq<string>, whole: seq<string>, w: Weights, i: nat)
    requires forall f :: f in part ==> f in whole
    requires i < |Ranked(part, w)|
    ensures i < |Ranked(whole, w)|
    ensures w(Ranked(part, w)[i]) <= w(Ranked(whole, w)[i])
  {
    var small, large := Ranked(part, w), Ranked(whole, w);
    var heads := small[..i + 1];
    MembersCount(heads);
    if i >= |large| || w(large[i]) < w(small[i]) {
      var front := if i < |large| then large[..i] else large;
      forall f | f in Members(heads)
        ensures f in Members(front)
      {
        HeavyInFront(part, whole, w, i, f);
      }
      MembersCount(front);
      SubsetSize(Members(heads), Members(front));
    }
  }

  lemma HeavyInFront(part: seq<string>, whole: seq<string>, w: Weights, i: nat, f: string)
    requires forall f :: f in part ==> f in whole
    requires i < |Ranked(part, w)| && f in Ranked(part, w)[..i + 1]
    requires i < |Ranked(whole, w)| ==> w(Ranked(whole, w)[i]) < w(Ranked(part, w)[i])
    ensures f in (if i < |Ranked(whole, w)| then Ranked(whole, w)[..i] else Ranked(whole, w))
  {
    var small, large := Ranked(part, w), Ranked(whole, w);
    var a :| 0 <= a <= i && small[a] == f;
    RankDescends(small, w, a, i);
    assert small[a] in small;
    assert f in large;
    var b :| 0 <= b < |large| && large[b] == f;
    if i < |large| {
      if i <= b {
        RankDescends(large, w, i, b);
      }
      assert large[..i][b] == f;
    }
  }

  lemma RankDescends(ordered: seq<string>, w: Weights, i: nat, j: nat)
    requires i <= j < |ordered| && Sorted(ordered, RankOrder(w))
    ensures w(ordered[j]) <= w(ordered[i])
  {
    assert i < j ==> RankOrder(w)(ordered[i], ordered[j]);
  }

  lemma SubsetSize(a: set<string>, b: set<string>)
    requires a <= b
    ensures |a| <= |b|
  {
    assert b == a + (b - a);
  }

  /** The budget claim: on any subset of the suite, shard k holds no file heavier than the suite's k-th. */
  lemma BudgetHoldsForSubsets(part: seq<string>, whole: seq<string>, m: nat, w: Weights, k: nat, f: string)
    requires Positive(w) && k < m && (forall g :: g in part ==> g in whole)
    requires f in LptShards(part, m, w)[k]
    ensures k < |Ranked(whole, w)| && w(f) <= w(Ranked(whole, w)[k])
  {
    ShardHead(part, m, w, k, f);
    SubsetRanksLower(part, whole, w, k);
  }

  // ---- The run-time check ----

  function Kept(files: seq<string>, excluded: seq<string>): (kept: seq<string>)
    ensures forall f :: f in kept <==> f in files && f !in excluded
  {
    if files == [] then []
    else (if files[0] in excluded then [] else [files[0]]) + Kept(files[1..], excluded)
  }

  method VerifyPartition(input: seq<string>, shards: seq<seq<string>>, excluded: seq<string>)
    returns (r: Result<(), PartitionError>)
    ensures r.Ok? <==> Covers(shards, Kept(input, excluded))
    ensures r == Err(Duplicated) <==> exists f :: f in Content(shards) && Content(shards)[f] > 1
    ensures r == Err(ExcludedLeaked) ==> exists f :: f in Content(shards) && f in excluded
    ensures r == Err(Dropped) ==> exists f :: f in input && f !in excluded && f !in Content(shards)
    ensures r == Err(NotInInput) ==> exists f :: f in Content(shards) && f !in input && f !in excluded
  {
    var inputSet := set f | f in input;
    var excludedSet := set f | f in excluded;
    var excludedPresent := inputSet * excludedSet;
    var seen, duplicates := TallyShards(shards);
    if duplicates != {} {
      var f :| f in duplicates;
      return Err(Duplicated);
    }
    var leaked := seen * excludedSet;
    if leaked != {} {
      var f :| f in leaked;
      return Err(ExcludedLeaked);
    }
    var covered := seen + excludedPresent;
    var missing := inputSet - covered;
    var extra := covered - inputSet;
    if missing != {} {
      var f :| f in missing;
      return Err(Dropped);
    }
    if extra != {} {
      var f :| f in extra;
      return Err(NotInInput);
    }
    return Ok(());
  }

  method TallyShards(shards: seq<seq<string>>) returns (seen: set<string>, duplicates: set<string>)
    ensures Tallied(Content(shards), seen, duplicates)
  {
    seen, duplicates := {}, {};
    for i := 0 to |shards|
      invariant Tallied(ContentOfFirst(shards, i), seen, duplicates)
    {
      var shard := shards[i];
      for j := 0 to |shard|
        invariant Tallied(ContentOfFirst(shards, i) + multiset(shard[..j]), seen, duplicates)
      {
        TallyStep(ContentOfFirst(shards, i), shard, j, seen, duplicates);
        if shard[j] in seen {
          duplicates := duplicates + {shard[j]};
        }
        seen := seen + {shard[j]};
      }
      assert shard[..|shard|] == shard;
    }
  }

  lemma TallyStep(before: multiset<string>, shard: seq<string>, j: nat, seen: set<string>, duplicates: set<string>)
    requires j < |shard| && Tallied(before + multiset(shard[..j]), seen, duplicates)
    ensures Tallied(before + multiset(shard[..j + 1]), seen + {shard[j]},
                    if shard[j] in seen then duplicates + {shard[j]} else duplicates)
  {
    assert shard[..j + 1] == shard[..j] + [shard[j]];
  }

  /** seen and duplicates hold the files met at least once and at least twice. */
  ghost predicate Tallied(placed: multiset<string>, seen: set<string>, duplicates: set<string>) {
    && (forall f :: f in seen <==> placed[f] > 0)
    && (forall f :: f in duplicates <==> placed[f] > 1)
  }

  method ShardFiles(files: seq<string>, index: int, total: int, durations: Durations, excluded: seq<string>)
    returns (r: Result<seq<string>, PartitionError>)
    ensures r == if 0 <= index < total
                 then Ok(LptShards(Kept(files, excluded), total, Weigh(durations))[index])
                 else Err(BadShardIndex)
    ensures forall f :: Weighs(durations, f, Weigh(durations)(f))
  {
    WeighsAll(durations);
    if total <= 0 || index < 0 || index >= total {
      return Err(BadShardIndex);
    }
    var shardable := Kept(files, excluded);
    var shards := AssignShards(shardable, total, durations);
    LptCovers(shardable, total, Weigh(durations));
    var verdict := VerifyPartition(files, shards.value, excluded);
    assert verdict.Ok?;  // the check cannot trip here
    return Ok(shards.value[index]);
  }
}
