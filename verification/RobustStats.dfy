/** Robust statistics of benchmark samples (benchmarks/src/benchmark_support.cpp), over exact reals. */
module RobustStats {
  import opened Order
  import opened Results
  import opened Sums
  import ShardBinpack

  datatype SampleError = EmptySample | NonFiniteSample

  /** A double: a finite value, or an infinity or not-a-number. */
  datatype Double = Finite(value: real) | NonFinite

  datatype Stats = Stats(count: nat, minimum: real, p10: real, median: real, p90: real, maximum: real,
                         mad: real, trimmedMean: real)

  // ---- Quantiles ----

  function Ceiling(x: real): int {
    if x == x.Floor as real then x.Floor else x.Floor + 1
  }

  function Position(n: nat, q: real): real
    requires 0 < n
  {
    q * (n - 1) as real
  }

  lemma ProductNonNegative(x: real, y: real)
    requires 0.0 <= x && 0.0 <= y
    ensures 0.0 <= x * y
  {}

  lemma ScaleDown(x: real, q: real)
    requires 0.0 <= x && q <= 1.0
    ensures q * x <= x
  {
    ProductNonNegative(1.0 - q, x);
    assert (1.0 - q) * x == x - q * x;
  }

  lemma PositionBetween(n: nat, q: real)
    requires 0 < n && 0.0 <= q <= 1.0
    ensures 0.0 <= Position(n, q) <= (n - 1) as real
  {
    ProductNonNegative(q, (n - 1) as real);
    ScaleDown((n - 1) as real, q);
  }

  lemma RoundedInRange(x: real, n: nat)
    requires 0.0 <= x <= n as real
    ensures 0 <= x.Floor <= Ceiling(x) <= n
  {
    assert x.Floor as real <= x < x.Floor as real + 1.0;
    if x.Floor == n {
      assert x == n as real;
    }
  }

  lemma PositionInRange(n: nat, q: real)
    requires 0 < n && 0.0 <= q <= 1.0
    ensures 0 <= Position(n, q).Floor <= Ceiling(Position(n, q)) <= n - 1
  {
    PositionBetween(n, q);
    RoundedInRange(Position(n, q), n - 1);
  }

  lemma PositionMonotone(n: nat, p: real, q: real)
    requires 0 < n && p <= q
    ensures Position(n, p) <= Position(n, q)
  {
    ProductNonNegative(q - p, (n - 1) as real);
    assert (q - p) * (n - 1) as real == Position(n, q) - Position(n, p);
  }

  /** Linear interpolation between the neighbours of a position. */
  function Between(low: real, high: real, weight: real): real {
    low * (1.0 - weight) + high * weight
  }

  function Interpolated(sorted: seq<real>, q: real): real
    requires sorted != [] && 0.0 <= q <= 1.0
  {
    var position := Position(|sorted|, q);
    PositionInRange(|sorted|, q);
    Between(sorted[position.Floor], sorted[Ceiling(position)], position - position.Floor as real)
  }

  function Quantile(sorted: seq<real>, q: real): Result<real, SampleError>
    requires 0.0 <= q <= 1.0
  {
    if sorted == [] then Err(EmptySample) else Ok(Interpolated(sorted, q))
  }

  lemma BetweenInRange(low: real, high: real, weight: real)
    requires low <= high && 0.0 <= weight <= 1.0
    ensures low <= Between(low, high, weight) <= high
  {
    assert Between(low, high, weight) == low + (high - low) * weight;
    ProductNonNegative(high - low, weight);
    ScaleDown(high - low, weight);
  }

  lemma BetweenMonotone(low: real, high: real, v: real, w: real)
    requires low <= high && v <= w
    ensures Between(low, high, v) <= Between(low, high, w)
  {
    assert Between(low, high, w) - Between(low, high, v) == (high - low) * (w - v);
    ProductNonNegative(high - low, w - v);
  }

  /** A quantile lies between the two observations around its position. */
  lemma QuantileBetweenNeighbours(sorted: seq<real>, q: real)
    requires sorted != [] && Sorted(sorted, RealLe) && 0.0 <= q <= 1.0
    ensures var position := Position(|sorted|, q);
            && 0 <= position.Floor <= Ceiling(position) < |sorted|
            && sorted[position.Floor] <= Interpolated(sorted, q) <= sorted[Ceiling(position)]
  {
    var position := Position(|sorted|, q);
    PositionInRange(|sorted|, q);
    SortedAt(sorted, position.Floor, Ceiling(position));
    BetweenInRange(sorted[position.Floor], sorted[Ceiling(position)], position - position.Floor as real);
  }

  lemma SortedAt(sorted: seq<real>, i: nat, j: nat)
    requires Sorted(sorted, RealLe) && i <= j < |sorted|
    ensures sorted[i] <= sorted[j]
  {
    assert i < j ==> RealLe(sorted[i], sorted[j]);
  }

  /** A larger q never has a smaller quantile. */
  lemma QuantileMonotone(sorted: seq<real>, p: real, q: real)
    requires sorted != [] && Sorted(sorted, RealLe) && 0.0 <= p <= q <= 1.0
    ensures sorted[0] <= Interpolated(sorted, p) <= Interpolated(sorted, q) <= sorted[|sorted| - 1]
  {
    var n := |sorted|;
    var a, b := Position(n, p), Position(n, q);
    PositionMonotone(n, p, q);
    QuantileBetweenNeighbours(sorted, p);
    QuantileBetweenNeighbours(sorted, q);
    SortedAt(sorted, 0, a.Floor);
    SortedAt(sorted, Ceiling(b), n - 1);
    if a.Floor == b.Floor {
      SameSegment(sorted, a, b);
    } else {
      SortedAt(sorted, Ceiling(a), b.Floor);
    }
  }

  lemma SameSegment(sorted: seq<real>, a: real, b: real)
    requires Sorted(sorted, RealLe) && a <= b && 0 <= a.Floor == b.Floor <= Ceiling(b) < |sorted|
    ensures Ceiling(a) <= Ceiling(b)
    ensures Between(sorted[a.Floor], sorted[Ceiling(a)], a - a.Floor as real)
         <= Between(sorted[b.Floor], sorted[Ceiling(b)], b - b.Floor as real)
  {
    var low, high := sorted[b.Floor], sorted[Ceiling(b)];
    SortedAt(sorted, b.Floor, Ceiling(b));
    BetweenInRange(low, high, b - b.Floor as real);
    if a != a.Floor as real {
      BetweenMonotone(low, high, a - a.Floor as real, b - b.Floor as real);
    }
  }

  /** The middle quantile is the median the shard packer computes. */
  lemma HalfIsMedian(values: seq<real>)
    requires values != []
    ensures Interpolated(SortReals(values), 0.5) == ShardBinpack.Median(values)
  {
    HalfPosition(|values|);
    MiddlePair(SortReals(values));
  }

  lemma MiddlePair(ordered: seq<real>)
    requires ordered != []
    ensures var n := |ordered|;
            Between(ordered[(n - 1) / 2], ordered[n / 2], if n % 2 == 1 then 0.0 else 0.5)
            == if n % 2 == 1 then ordered[n / 2] else (ordered[n / 2 - 1] + ordered[n / 2]) / 2.0
  {}

  /** The middle position is an index for an odd count, half way between two for an even one. */
  lemma HalfPosition(n: nat)
    requires 0 < n
    ensures var position := Position(n, 0.5);
            && position.Floor == (n - 1) / 2 && Ceiling(position) == n / 2
            && position - position.Floor as real == if n % 2 == 1 then 0.0 else 0.5
  {
    var half := n / 2;
    if n % 2 == 1 {
      assert n == 2 * half + 1;
      assert Position(n, 0.5) == half as real;
    } else {
      assert n == 2 * half;
      assert Position(n, 0.5) == (half - 1) as real + 0.5;
    }
  }

  // ---- Quantiles without rounding ----

  /** x lies on the straight line from observation k to the next one, at q of the way from the first to the last. */
  ghost predicate OnSegment(s: seq<real>, q: real, k: nat, x: real)
    requires k < |s|
  {
    var at := q * (|s| - 1) as real;
    && k as real <= at
    && if k == |s| - 1 then at == k as real && x == s[k]
       else at <= k as real + 1.0 && x == s[k] + (at - k as real) * (s[k + 1] - s[k])
  }

  ghost predicate IsQuantile(s: seq<real>, q: real, x: real) {
    exists k :: 0 <= k < |s| && OnSegment(s, q, k, x)
  }

  lemma BetweenLine(low: real, high: real, weight: real)
    ensures Between(low, high, weight) == low + weight * (high - low)
  {}

  lemma QuantileExactly(sorted: seq<real>, q: real)
    requires sorted != [] && 0.0 <= q <= 1.0
    ensures IsQuantile(sorted, q, Interpolated(sorted, q))
  {
    var position := Position(|sorted|, q);
    PositionInRange(|sorted|, q);
    var k := position.Floor;
    BetweenLine(sorted[k], sorted[Ceiling(position)], position - k as real);
    assert OnSegment(sorted, q, k, Interpolated(sorted, q));
  }

  // ---- Trimming ----

  function Trim(n: nat): nat {
    if 5 <= n then (if n / 10 < 1 then 1 else n / 10) else 0
  }

  function Middle(sorted: seq<real>): (kept: seq<real>)
    requires sorted != []
    ensures kept != []
  {
    sorted[Trim(|sorted|)..|sorted| - Trim(|sorted|)]
  }

  function Total(s: seq<real>): real {
    SumOf(s, (x: real) => x)
  }

  function TrimmedMean(sorted: seq<real>): real
    requires sorted != []
  {
    Total(Middle(sorted)) / |Middle(sorted)| as real
  }

  lemma {:induction false} TotalBetween(s: seq<real>, low: real, high: real)
    requires forall x :: x in s ==> low <= x <= high
    ensures low * |s| as real <= Total(s) <= high * |s| as real
  {
    if s != [] {
      assert s[0] in s && forall x :: x in s[1..] ==> x in s;
      TotalBetween(s[1..], low, high);
      assert |s| as real == 1.0 + |s[1..]| as real;
    }
  }

  lemma MeanBetween(total: real, n: real, low: real, high: real)
    requires 0.0 < n && low * n <= total <= high * n
    ensures low <= total / n <= high
  {
    var mean := total / n;
    assert mean * n == total;
    assert mean < low ==> (low - mean) * n > 0.0;
    assert mean > high ==> (mean - high) * n > 0.0;
  }

  lemma KeptBetween(sorted: seq<real>, t: nat)
    requires Sorted(sorted, RealLe) && t < |sorted| - t
    ensures var kept := sorted[t..|sorted| - t]; forall x :: x in kept ==> sorted[t] <= x <= sorted[|sorted| - 1 - t]
  {
    var kept := sorted[t..|sorted| - t];
    forall x | x in kept
      ensures sorted[t] <= x <= sorted[|sorted| - 1 - t]
    {
      var i :| 0 <= i < |kept| && kept[i] == x;
      SortedAt(sorted, t, t + i);
      SortedAt(sorted, t + i, |sorted| - 1 - t);
    }
  }

  /** Something is always kept, and the trimmed mean lies between the kept extremes. */
  lemma TrimmedMeanBetween(sorted: seq<real>)
    requires sorted != [] && Sorted(sorted, RealLe)
    ensures var t := Trim(|sorted|);
            && t < |sorted| - t
            && sorted[t] <= TrimmedMean(sorted) <= sorted[|sorted| - 1 - t]
  {
    var t := Trim(|sorted|);
    var kept := Middle(sorted);
    KeptBetween(sorted, t);
    TotalBetween(kept, sorted[t], sorted[|sorted| - 1 - t]);
    MeanBetween(Total(kept), |kept| as real, sorted[t], sorted[|sorted| - 1 - t]);
  }

  /** From five observations on, a value above all others counts for nothing: any other such value gives the same
      trimmed mean. */
  lemma LargestIgnored(values: seq<real>, x: real, y: real)
    requires 4 <= |values| && forall v :: v in values ==> v <= x && v <= y
    ensures TrimmedMean(SortReals(values + [x])) == TrimmedMean(SortReals(values + [y]))
  {
    SortWithLargest(values, x);
    SortWithLargest(values, y);
    MiddleWithoutLast(SortReals(values), x);
    MiddleWithoutLast(SortReals(values), y);
  }

  lemma MiddleWithoutLast(s: seq<real>, x: real)
    requires 4 <= |s|
    ensures Middle(s + [x]) == s[Trim(|s| + 1)..|s| + 1 - Trim(|s| + 1)]
  {}

  lemma SortWithLargest(values: seq<real>, x: real)
    requires forall v :: v in values ==> v <= x
    ensures SortReals(values + [x]) == SortReals(values) + [x]
  {
    RealOrder();
    var s := SortReals(values);
    SameMembers(s, values);
    forall i, j | 0 <= i < j < |s + [x]|
      ensures RealLe((s + [x])[i], (s + [x])[j])
    {
      assert (s + [x])[i] == s[i] && s[i] in s;
    }
    SortedUnique(SortReals(values + [x]), s + [x], RealLe);
  }

  // ---- The summary ----

  function Values(samples: seq<Double>): seq<real>
    requires forall s :: s in samples ==> s.Finite?
  {
    if samples == [] then [] else assert samples[0] in samples; [samples[0].value] + Values(samples[1..])
  }

  function Deviations(sorted: seq<real>, centre: real): (r: seq<real>)
    ensures |r| == |sorted|
    ensures forall i :: 0 <= i < |r| ==> r[i] == if sorted[i] < centre then centre - sorted[i] else sorted[i] - centre
  {
    if sorted == [] then []
    else [if sorted[0] < centre then centre - sorted[0] else sorted[0] - centre] + Deviations(sorted[1..], centre)
  }

  function Summary(values: seq<real>): Stats
    requires values != []
  {
    var sorted := SortReals(values);
    var median := Interpolated(sorted, 0.5);
    Stats(|sorted|, sorted[0], Interpolated(sorted, 0.1), median, Interpolated(sorted, 0.9), sorted[|sorted| - 1],
          Interpolated(SortReals(Deviations(sorted, median)), 0.5), TrimmedMean(sorted))
  }

  /** The order in which samples arrive does not matter. */
  lemma SummaryOfPermutation(a: seq<real>, b: seq<real>)
    requires a != [] && b != [] && multiset(a) == multiset(b)
    ensures Summary(a) == Summary(b)
  {
    RealOrder();
    SortedUnique(SortReals(a), SortReals(b), RealLe);
  }

  /** The ends of a sorted sample are its extremes. */
  lemma ExtremesOf(values: seq<real>)
    requires values != []
    ensures var sorted := SortReals(values);
            && sorted[0] in values && sorted[|sorted| - 1] in values
            && forall v :: v in values ==> sorted[0] <= v <= sorted[|sorted| - 1]
  {
    var sorted := SortReals(values);
    var n := |sorted|;
    SameMembers(sorted, values);
    assert sorted[0] in sorted && sorted[n - 1] in sorted;
    forall v | v in values
      ensures sorted[0] <= v <= sorted[n - 1]
    {
      var i :| 0 <= i < n && sorted[i] == v;
      SortedAt(sorted, 0, i);
      SortedAt(sorted, i, n - 1);
    }
  }

  lemma TrimmedMeanInRange(sorted: seq<real>)
    requires sorted != [] && Sorted(sorted, RealLe)
    ensures sorted[0] <= TrimmedMean(sorted) <= sorted[|sorted| - 1]
  {
    TrimmedMeanBetween(sorted);
    SortedAt(sorted, 0, Trim(|sorted|));
    SortedAt(sorted, |sorted| - 1 - Trim(|sorted|), |sorted| - 1);
  }

  /** What each statistic is of the sorted sample. */
  ghost predicate Describes(r: Stats, s: seq<real>) {
    var n := |s|;
    && n > 0 && r.count == n && r.minimum == s[0] && r.maximum == s[n - 1]
    && IsQuantile(s, 0.1, r.p10) && IsQuantile(s, 0.5, r.median) && IsQuantile(s, 0.9, r.p90)
    && IsDeviation(r.mad, s, r.median)
    && IsTrimmedMean(r.trimmedMean, s, if n < 5 then 0 else if n < 20 then 1 else n / 10)
  }

  /** The middle of the absolute deviations from the centre. */
  ghost predicate IsDeviation(mad: real, s: seq<real>, centre: real) {
    exists gaps, ordered :: AreGaps(gaps, s, centre) && multiset(ordered) == multiset(gaps) && Sorted(ordered, RealLe)
                            && IsQuantile(ordered, 0.5, mad)
  }

  ghost predicate AreGaps(gaps: seq<real>, s: seq<real>, centre: real) {
    && |gaps| == |s|
    && forall i :: 0 <= i < |s| ==> gaps[i] >= 0.0 && (gaps[i] == s[i] - centre || gaps[i] == centre - s[i])
  }

  /** The mean of what is left without the t smallest and the t largest. */
  ghost predicate IsTrimmedMean(mean: real, s: seq<real>, t: nat) {
    t < |s| - t && mean * (|s| - t - t) as real == SumOf(s[t..|s| - t], (x: real) => x)
  }

  lemma SummaryExactly(values: seq<real>)
    requires values != []
    ensures Describes(Summary(values), SortReals(values))
  {
    var s := SortReals(values);
    var r := Summary(values);
    QuantileExactly(s, 0.1);
    QuantileExactly(s, 0.5);
    QuantileExactly(s, 0.9);
    DeviationExactly(s, r.median);
    TrimmedExactly(s);
  }

  lemma DeviationExactly(s: seq<real>, centre: real)
    requires s != []
    ensures IsDeviation(Interpolated(SortReals(Deviations(s, centre)), 0.5), s, centre)
  {
    var gaps := Deviations(s, centre);
    var ordered := SortReals(gaps);
    QuantileExactly(ordered, 0.5);
    assert AreGaps(gaps, s, centre);
  }

  lemma TrimmedExactly(s: seq<real>)
    requires s != []
    ensures IsTrimmedMean(TrimmedMean(s), s, if |s| < 5 then 0 else if |s| < 20 then 1 else |s| / 10)
  {
    var t := Trim(|s|);
    assert |Middle(s)| == |s| - t - t;
  }

  /** The order of the statistics, and what each of them is of the samples. */
  lemma SummaryOrder(values: seq<real>)
    requires values != []
    ensures var s := Summary(values);
            && s.minimum <= s.p10 <= s.median <= s.p90 <= s.maximum
            && s.minimum <= s.trimmedMean <= s.maximum
            && s.minimum in values && s.maximum in values
            && (forall v :: v in values ==> s.minimum <= v <= s.maximum)
            && s.median == ShardBinpack.Median(values)
            && 0.0 <= s.mad <= s.maximum - s.minimum
  {
    var sorted := SortReals(values);
    QuantileMonotone(sorted, 0.1, 0.5);
    QuantileMonotone(sorted, 0.5, 0.9);
    HalfIsMedian(values);
    TrimmedMeanInRange(sorted);
    ExtremesOf(values);
    DeviationRange(sorted, Interpolated(sorted, 0.5));
  }

  lemma DeviationRange(sorted: seq<real>, centre: real)
    requires sorted != [] && Sorted(sorted, RealLe) && sorted[0] <= centre <= sorted[|sorted| - 1]
    ensures 0.0 <= Interpolated(SortReals(Deviations(sorted, centre)), 0.5) <= sorted[|sorted| - 1] - sorted[0]
  {
    var d := Deviations(sorted, centre);
    var ordered := SortReals(d);
    DeviationsBetween(sorted, centre);
    ExtremesOf(d);
    QuantileMonotone(ordered, 0.5, 0.5);
  }

  lemma DeviationsBetween(sorted: seq<real>, centre: real)
    requires sorted != [] && Sorted(sorted, RealLe) && sorted[0] <= centre <= sorted[|sorted| - 1]
    ensures forall v :: v in Deviations(sorted, centre) ==> 0.0 <= v <= sorted[|sorted| - 1] - sorted[0]
  {
    var d := Deviations(sorted, centre);
    forall v | v in d
      ensures 0.0 <= v <= sorted[|sorted| - 1] - sorted[0]
    {
      var i :| 0 <= i < |d| && d[i] == v;
      SortedAt(sorted, 0, i);
      SortedAt(sorted, i, |sorted| - 1);
    }
  }

  /** The finite values of the samples, or nothing. */
  method FiniteValues(samples: seq<Double>) returns (r: Result<seq<real>, SampleError>)
    ensures r.Err? <==> exists s :: s in samples && s.NonFinite?
    ensures r.Err? ==> r.error == NonFiniteSample
    ensures r.Ok? ==> r.value == Values(samples)
  {
    var values: seq<real> := [];
    for k := 0 to |samples|
      invariant forall s :: s in samples[..k] ==> s.Finite?
      invariant values == Values(samples[..k])
    {
      if samples[k].NonFinite? {
        assert samples[k] in samples;
        return Err(NonFiniteSample);
      }
      assert samples[..k + 1] == samples[..k] + [samples[k]];
      ValuesAppend(samples[..k], samples[k]);
      values := values + [samples[k].value];
    }
    assert samples[..|samples|] == samples;
    return Ok(values);
  }

  method MedianDeviation(sorted: seq<real>, median: real) returns (mad: real)
    requires sorted != []
    ensures mad == Interpolated(SortReals(Deviations(sorted, median)), 0.5)
  {
    var deviations: seq<real> := [];
    for k := 0 to |sorted|
      invariant |deviations| == k
      invariant forall i :: 0 <= i < k ==>
                  deviations[i] == if sorted[i] < median then median - sorted[i] else sorted[i] - median
    {
      var gap := sorted[k] - median;
      deviations := deviations + [if gap < 0.0 then -gap else gap];
    }
    assert deviations == Deviations(sorted, median);
    mad := Quantile(SortReals(deviations), 0.5).value;
  }

  method Accumulate(sorted: seq<real>, first: nat, last: nat) returns (sum: real)
    requires first <= last <= |sorted|
    ensures sum == Total(sorted[first..last])
  {
    sum := 0.0;
    for k := first to last
      invariant sum == Total(sorted[first..k])
    {
      assert sorted[first..k + 1] == sorted[first..k] + [sorted[k]];
      TotalAppend(sorted[first..k], sorted[k]);
      sum := sum + sorted[k];
    }
  }

  lemma TotalAppend(s: seq<real>, x: real)
    ensures Total(s + [x]) == Total(s) + x
  {
    SumAppend(s, [x], (v: real) => v);
    SumSingleton(x, (v: real) => v);
  }

  method TrimmedAverage(sorted: seq<real>) returns (mean: real)
    requires sorted != []
    ensures mean == TrimmedMean(sorted)
  {
    var trim := if |sorted| < 5 then 0 else if |sorted| / 10 > 1 then |sorted| / 10 else 1;
    assert trim == Trim(|sorted|);
    var sum := Accumulate(sorted, trim, |sorted| - trim);
    mean := sum / (|sorted| - 2 * trim) as real;
  }

  /** summarize. */
  method Summarize(samples: seq<Double>) returns (r: Result<Stats, SampleError>)
    ensures r.Err? <==> samples == [] || exists s :: s in samples && s.NonFinite?
    ensures r.Err? ==> r.error == if samples == [] then EmptySample else NonFiniteSample
    ensures r.Ok? ==> Values(samples) != [] && r.value == Summary(Values(samples))
    ensures r.Ok? ==> Describes(r.value, SortReals(Values(samples)))
  {
    if samples == [] {
      return Err(EmptySample);
    }
    var values := FiniteValues(samples);
    if values.Err? {
      return Err(values.error);
    }
    var sorted := SortReals(values.value);
    var p10, median, p90 := Quantile(sorted, 0.1).value, Quantile(sorted, 0.5).value, Quantile(sorted, 0.9).value;
    var mad := MedianDeviation(sorted, median);
    var trimmedMean := TrimmedAverage(sorted);
    SummaryExactly(values.value);
    r := Ok(Stats(|sorted|, sorted[0], p10, median, p90, sorted[|sorted| - 1], mad, trimmedMean));
  }

  lemma {:induction false} ValuesAppend(samples: seq<Double>, last: Double)
    requires last.Finite? && forall s :: s in samples ==> s.Finite?
    ensures forall s :: s in samples + [last] ==> s.Finite?
    ensures Values(samples + [last]) == Values(samples) + [last.value]
  {
    if samples == [] {
      assert samples + [last] == [last];
    } else {
      assert (samples + [last])[1..] == samples[1..] + [last];
      ValuesAppend(samples[1..], last);
    }
  }
}
