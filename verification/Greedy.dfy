/** Greedy list scheduling on owner sequences, and its distance from every other assignment. */
module Greedy {
  import opened Sums

  /** Load that the first n jobs put on shard k when job i belongs to owner[i]. */
  function Load(ws: seq<real>, owner: seq<nat>, k: nat, n: nat): real
    requires n <= |ws| && n <= |owner|
  {
    if n == 0 then 0.0
    else Load(ws, owner, k, n - 1) + if owner[n - 1] == k then ws[n - 1] else 0.0
  }

  function Total(ws: seq<real>, n: nat): real
    requires n <= |ws|
  {
    if n == 0 then 0.0 else Total(ws, n - 1) + ws[n - 1]
  }

  /** Sum of the loads of shards 0..m. */
  function SumLoads(ws: seq<real>, owner: seq<nat>, m: nat, n: nat): real
    requires n <= |ws| && n <= |owner|
  {
    if m == 0 then 0.0 else SumLoads(ws, owner, m - 1, n) + Load(ws, owner, m - 1, n)
  }

  ghost predicate Assigns(owner: seq<nat>, m: nat) {
    forall i :: 0 <= i < |owner| ==> owner[i] < m
  }

  ghost predicate NonNegative(ws: seq<real>) {
    forall i :: 0 <= i < |ws| ==> 0.0 <= ws[i]
  }

  ghost predicate Descending(ws: seq<real>) {
    forall i, j :: 0 <= i < j < |ws| ==> ws[j] <= ws[i]
  }

  /** First index holding the least value. */
  function Least(loads: seq<real>): (k: nat)
    requires loads != []
    ensures k < |loads|
    ensures forall i :: 0 <= i < |loads| ==> loads[k] <= loads[i]
    ensures forall i :: 0 <= i < k ==> loads[k] < loads[i]
  {
    if |loads| == 1 then 0
    else
      var k := Least(loads[..|loads| - 1]);
      if loads[|loads| - 1] < loads[k] then |loads| - 1 else k
  }

  function LoadsOf(ws: seq<real>, owner: seq<nat>, m: nat, n: nat): (r: seq<real>)
    requires n <= |ws| && n <= |owner|
    ensures |r| == m
  {
    seq(m, k requires 0 <= k => Load(ws, owner, k, n))
  }

  /** Owners that the greedy rule gives the first n jobs: each job goes to the least-loaded shard. */
  function Pack(ws: seq<real>, m: nat, n: nat): (owner: seq<nat>)
    requires 0 < m && n <= |ws|
    ensures |owner| == n && Assigns(owner, m)
  {
    if n == 0 then []
    else
      var before := Pack(ws, m, n - 1);
      before + [Least(LoadsOf(ws, before, m, n - 1))]
  }

  // ---- Loads ----

  lemma {:induction false} LoadPrefix(ws: seq<real>, a: seq<nat>, b: seq<nat>, k: nat, n: nat)
    requires n <= |ws| && n <= |a| && n <= |b|
    requires forall i :: 0 <= i < n ==> a[i] == b[i]
    ensures Load(ws, a, k, n) == Load(ws, b, k, n)
  {
    if n > 0 { LoadPrefix(ws, a, b, k, n - 1); }
  }

  lemma {:induction false} LoadNonNegative(ws: seq<real>, owner: seq<nat>, k: nat, n: nat)
    requires n <= |ws| && n <= |owner| && NonNegative(ws)
    ensures 0.0 <= Load(ws, owner, k, n)
  {
    if n > 0 { LoadNonNegative(ws, owner, k, n - 1); }
  }

  lemma {:induction false} SumLoadsStep(ws: seq<real>, owner: seq<nat>, m: nat, n: nat)
    requires n < |ws| && n < |owner|
    ensures SumLoads(ws, owner, m, n + 1)
            == SumLoads(ws, owner, m, n) + if owner[n] < m then ws[n] else 0.0
  {
    if m > 0 { SumLoadsStep(ws, owner, m - 1, n); }
  }

  lemma {:induction false} SumLoadsEmpty(ws: seq<real>, owner: seq<nat>, m: nat)
    ensures SumLoads(ws, owner, m, 0) == 0.0
  {
    if m > 0 { SumLoadsEmpty(ws, owner, m - 1); }
  }

  /** An assignment to m shards loses no weight. */
  lemma {:induction false} LoadsConserveWeight(ws: seq<real>, owner: seq<nat>, m: nat, n: nat)
    requires n <= |ws| && n <= |owner| && Assigns(owner, m)
    ensures SumLoads(ws, owner, m, n) == Total(ws, n)
  {
    if n == 0 {
      SumLoadsEmpty(ws, owner, m);
    } else {
      LoadsConserveWeight(ws, owner, m, n - 1);
      SumLoadsStep(ws, owner, m, n - 1);
    }
  }

  lemma {:induction false} SumLoadsAtMost(ws: seq<real>, owner: seq<nat>, m: nat, n: nat, bound: real)
    requires n <= |ws| && n <= |owner|
    requires Fits(ws, owner, m, n, bound)
    ensures SumLoads(ws, owner, m, n) <= Times(m, bound)
  {
    if m > 0 { SumLoadsAtMost(ws, owner, m - 1, n, bound); }
  }

  lemma {:induction false} SumLoadsAtLeast(ws: seq<real>, owner: seq<nat>, m: nat, n: nat, bound: real)
    requires n <= |ws| && n <= |owner|
    requires forall k: nat :: k < m ==> bound <= Load(ws, owner, k, n)
    ensures Times(m, bound) <= SumLoads(ws, owner, m, n)
  {
    if m > 0 { SumLoadsAtLeast(ws, owner, m - 1, n, bound); }
  }

  // ---- One greedy step ----

  /** Shard that receives job j. */
  function Target(ws: seq<real>, m: nat, j: nat): (k: nat)
    requires 0 < m && j < |ws|
    ensures k < m
    ensures forall i: nat :: i < m ==> Load(ws, Pack(ws, m, j), k, j) <= Load(ws, Pack(ws, m, j), i, j)
  {
    var loads := LoadsOf(ws, Pack(ws, m, j), m, j);
    var k := Least(loads);
    assert forall i: nat :: i < m ==> loads[i] == Load(ws, Pack(ws, m, j), i, j);
    k
  }

  lemma PackStep(ws: seq<real>, m: nat, j: nat, k: nat)
    requires 0 < m && j < |ws| && k < m
    ensures Pack(ws, m, j + 1) == Pack(ws, m, j) + [Target(ws, m, j)]
    ensures Load(ws, Pack(ws, m, j + 1), k, j + 1)
            == Load(ws, Pack(ws, m, j), k, j) + if k == Target(ws, m, j) then ws[j] else 0.0
  {
    LoadPrefix(ws, Pack(ws, m, j), Pack(ws, m, j + 1), k, j);
  }

  /** Averaging: the receiving shard lies below the mean of what is already placed. */
  lemma ReceiverBelowMean(ws: seq<real>, m: nat, j: nat)
    requires 0 < m && j < |ws|
    ensures Times(m, Load(ws, Pack(ws, m, j), Target(ws, m, j), j) + ws[j])
            <= Total(ws, j + 1) + Times(m, ws[j]) - ws[j]
  {
    var owner := Pack(ws, m, j);
    var least := Load(ws, owner, Target(ws, m, j), j);
    SumLoadsAtLeast(ws, owner, m, j, least);
    LoadsConserveWeight(ws, owner, m, j);
    TimesAdd(m, least, ws[j]);
  }

  // ---- Bounds against every other assignment ----

  /** No shard of this assignment of the first n jobs exceeds the bound. */
  ghost predicate Fits(ws: seq<real>, owner: seq<nat>, m: nat, n: nat, bound: real)
    requires n <= |ws| && n <= |owner|
  {
    forall k: nat :: k < m ==> Load(ws, owner, k, n) <= bound
  }

  lemma FitsPrefix(ws: seq<real>, owner: seq<nat>, m: nat, n: nat, bound: real)
    requires n < |ws| && n < |owner| && NonNegative(ws)
    requires Fits(ws, owner, m, n + 1, bound)
    ensures Fits(ws, owner, m, n, bound)
  {
    forall k: nat | k < m
      ensures Load(ws, owner, k, n) <= bound
    {
      assert Load(ws, owner, k, n + 1) <= bound;
    }
  }

  lemma JobFits(ws: seq<real>, owner: seq<nat>, m: nat, n: nat, bound: real, i: nat)
    requires i < n <= |ws| && n <= |owner| && NonNegative(ws) && Assigns(owner, m)
    requires Fits(ws, owner, m, n, bound)
    ensures ws[i] <= bound
  {
    if i == n - 1 {
      LoadNonNegative(ws, owner, owner[i], i);
      assert Load(ws, owner, owner[i], n) <= bound;
    } else {
      FitsPrefix(ws, owner, m, n - 1, bound);
      JobFits(ws, owner, m, n - 1, bound, i);
    }
  }

  lemma TotalFits(ws: seq<real>, owner: seq<nat>, m: nat, n: nat, bound: real)
    requires n <= |ws| && n <= |owner| && Assigns(owner, m)
    requires Fits(ws, owner, m, n, bound)
    ensures Total(ws, n) <= Times(m, bound)
  {
    SumLoadsAtMost(ws, owner, m, n, bound);
    LoadsConserveWeight(ws, owner, m, n);
  }

  /** Tokens for the counting argument: two for a job too big to share a shard with a job of weight w. */
  function Tokens(ws: seq<real>, w: real, bound: real): (ts: seq<real>)
    ensures |ts| == |ws|
    ensures forall i :: 0 <= i < |ws| ==> ts[i] == if ws[i] > bound - w then 2.0 else 1.0
  {
    seq(|ws|, i requires 0 <= i < |ws| => if ws[i] > bound - w then 2.0 else 1.0)
  }

  /** A shard within the bound whose jobs all exceed a third of it holds at most two tokens. */
  lemma {:induction false} FewTokensFit(ws: seq<real>, owner: seq<nat>, k: nat, n: nat, w: real, bound: real)
    requires n <= |ws| && n <= |owner|
    requires forall i :: 0 <= i < n ==> w <= ws[i]
    requires bound < 3.0 * w && w <= bound
    ensures var tokens := Load(Tokens(ws, w, bound), owner, k, n);
            var load := Load(ws, owner, k, n);
            || (tokens == 0.0 && load == 0.0)
            || (tokens == 1.0 && w <= load <= bound - w)
            || (tokens == 2.0 && bound - w < load)
            || (2.0 < tokens && bound < load)
  {
    if n > 0 { FewTokensFit(ws, owner, k, n - 1, w, bound); }
  }

  lemma GreedyShardsFull(ws: seq<real>, m: nat, j: nat, bound: real)
    requires 0 < m && j < |ws| && Descending(ws)
    requires ws[j] <= bound < 3.0 * ws[j]
    requires bound - ws[j] < Load(ws, Pack(ws, m, j), Target(ws, m, j), j)
    ensures forall k: nat :: k < m ==> 2.0 <= Load(Tokens(ws, ws[j], bound), Pack(ws, m, j), k, j)
  {
    forall k: nat {:trigger Load(Tokens(ws, ws[j], bound), Pack(ws, m, j), k, j)} | k < m
      ensures 2.0 <= Load(Tokens(ws, ws[j], bound), Pack(ws, m, j), k, j)
    {
      FewTokensFit(ws, Pack(ws, m, j), k, j, ws[j], bound);
      assert Load(ws, Pack(ws, m, j), Target(ws, m, j), j) <= Load(ws, Pack(ws, m, j), k, j);
    }
  }

  lemma BoundedShardsRoom(ws: seq<real>, other: seq<nat>, m: nat, j: nat, bound: real)
    requires j < |ws| && |other| == |ws| && Descending(ws)
    requires Fits(ws, other, m, j + 1, bound)
    requires ws[j] <= bound < 3.0 * ws[j]
    ensures Fits(Tokens(ws, ws[j], bound), other, m, j + 1, 2.0)
  {
    forall k: nat {:trigger Load(Tokens(ws, ws[j], bound), other, k, j + 1)} | k < m
      ensures Load(Tokens(ws, ws[j], bound), other, k, j + 1) <= 2.0
    {
      FewTokensFit(ws, other, k, j + 1, ws[j], bound);
      assert Load(ws, other, k, j + 1) <= bound;
    }
  }

  /** Counting: a job heavier than a third of the bound still fits below the bound, because every shard of
      the greedy packing that could not take it holds two tokens and the bounded assignment has room for
      only two tokens a shard. */
  lemma LargeJobFits(ws: seq<real>, other: seq<nat>, m: nat, j: nat, bound: real)
    requires 0 < m && j < |ws| && |other| == |ws| && Assigns(other, m)
    requires NonNegative(ws) && Descending(ws)
    requires Fits(ws, other, m, j + 1, bound)
    requires bound < 3.0 * ws[j]
    ensures Load(ws, Pack(ws, m, j), Target(ws, m, j), j) + ws[j] <= bound
  {
    var w := ws[j];
    var owner := Pack(ws, m, j);
    var ts := Tokens(ws, w, bound);
    JobFits(ws, other, m, j + 1, bound, j);
    if bound - w < Load(ws, owner, Target(ws, m, j), j) {
      GreedyShardsFull(ws, m, j, bound);
      SumLoadsAtLeast(ts, owner, m, j, 2.0);
      LoadsConserveWeight(ts, owner, m, j);
      BoundedShardsRoom(ws, other, m, j, bound);
      SumLoadsAtMost(ts, other, m, j + 1, 2.0);
      LoadsConserveWeight(ts, other, m, j + 1);
      assert false;
    }
  }

  /** Averaging over a whole run: m L <= total + (m - 1) w when no job exceeds w. */
  lemma {:induction false} LoadNearMean(ws: seq<real>, m: nat, n: nat, k: nat, heaviest: real)
    requires k < m && n <= |ws| && NonNegative(ws) && 0.0 <= heaviest
    requires forall i :: 0 <= i < |ws| ==> ws[i] <= heaviest
    ensures Times(m, Load(ws, Pack(ws, m, n), k, n)) <= Total(ws, n) + Times(m, heaviest) - heaviest
  {
    if n == 0 {
      TimesAtLeast(m, heaviest);
    } else {
      LoadNearMean(ws, m, n - 1, k, heaviest);
      NearMeanStep(ws, m, n, k, heaviest);
    }
  }

  lemma NearMeanStep(ws: seq<real>, m: nat, n: nat, k: nat, heaviest: real)
    requires k < m && 0 < n <= |ws| && 0.0 <= ws[n - 1] <= heaviest
    requires Times(m, Load(ws, Pack(ws, m, n - 1), k, n - 1)) <= Total(ws, n - 1) + Times(m, heaviest) - heaviest
    ensures Times(m, Load(ws, Pack(ws, m, n), k, n)) <= Total(ws, n) + Times(m, heaviest) - heaviest
  {
    PackStep(ws, m, n - 1, k);
    if k == Target(ws, m, n - 1) {
      ReceiverNearMean(ws, m, n, heaviest);
    }
  }

  lemma ReceiverNearMean(ws: seq<real>, m: nat, n: nat, heaviest: real)
    requires 0 < m && 0 < n <= |ws| && ws[n - 1] <= heaviest
    ensures Times(m, Load(ws, Pack(ws, m, n - 1), Target(ws, m, n - 1), n - 1) + ws[n - 1])
            <= Total(ws, n) + Times(m, heaviest) - heaviest
  {
    ReceiverBelowMean(ws, m, n - 1);
    TimesMonotone(m, ws[n - 1], heaviest);
  }

  /** List scheduling in any order: m L <= (2m - 1) M for every assignment with largest load M. */
  lemma {:induction false} ListSchedulingBound(ws: seq<real>, other: seq<nat>, m: nat, n: nat, bound: real, k: nat)
    requires k < m && n <= |ws| == |other| && Assigns(other, m)
    requires NonNegative(ws) && Fits(ws, other, m, n, bound)
    ensures Times(m, Load(ws, Pack(ws, m, n), k, n)) <= 2.0 * Times(m, bound) - bound
  {
    if n == 0 {
      assert 0.0 <= bound by { assert Load(ws, other, k, 0) <= bound; }
      TimesAtLeast(m, bound);
    } else {
      var j := n - 1;
      FitsPrefix(ws, other, m, j, bound);
      ListSchedulingBound(ws, other, m, j, bound, k);
      PackStep(ws, m, j, k);
      if k == Target(ws, m, j) {
        ReceiverBelowMean(ws, m, j);
        TotalFits(ws, other, m, n, bound);
        JobFits(ws, other, m, n, bound, j);
        TimesMonotone(m, ws[j], bound);
      }
    }
  }

  /** Longest job first: 3 m L <= (4m - 1) M for every assignment with largest load M. */
  lemma {:induction false} LongestFirstBound(ws: seq<real>, other: seq<nat>, m: nat, n: nat, bound: real, k: nat)
    requires k < m && n <= |ws| == |other| && Assigns(other, m)
    requires NonNegative(ws) && Descending(ws) && Fits(ws, other, m, n, bound)
    ensures 3.0 * Times(m, Load(ws, Pack(ws, m, n), k, n)) <= 4.0 * Times(m, bound) - bound
  {
    if n == 0 {
      assert 0.0 <= bound by { assert Load(ws, other, k, 0) <= bound; }
      TimesAtLeast(m, bound);
    } else {
      FitsPrefix(ws, other, m, n - 1, bound);
      LongestFirstBound(ws, other, m, n - 1, bound, k);
      PackStep(ws, m, n - 1, k);
      if k == Target(ws, m, n - 1) {
        LongestFirstStep(ws, other, m, n - 1, bound);
      }
    }
  }

  lemma LongestFirstStep(ws: seq<real>, other: seq<nat>, m: nat, j: nat, bound: real)
    requires 0 < m && j < |ws| == |other| && Assigns(other, m)
    requires NonNegative(ws) && Descending(ws) && Fits(ws, other, m, j + 1, bound)
    ensures 3.0 * Times(m, Load(ws, Pack(ws, m, j), Target(ws, m, j), j) + ws[j]) <= 4.0 * Times(m, bound) - bound
  {
    JobFits(ws, other, m, j + 1, bound, j);
    if bound < 3.0 * ws[j] {
      LargeJobFits(ws, other, m, j, bound);
      TimesMonotone(m, Load(ws, Pack(ws, m, j), Target(ws, m, j), j) + ws[j], bound);
      TimesAtLeast(m, bound);
    } else {
      ReceiverBelowMean(ws, m, j);
      TotalFits(ws, other, m, j + 1, bound);
      TimesThird(m, ws[j], bound);
    }
  }

  lemma {:induction false} TimesThird(m: nat, x: real, y: real)
    requires 0 < m && 3.0 * x <= y
    ensures 3.0 * (Times(m, x) - x) <= Times(m, y) - y
  {
    if m > 1 { TimesThird(m - 1, x, y); }
  }

  // ---- Which job opens which shard ----

  ghost predicate AllPositive(ws: seq<real>) {
    forall i :: 0 <= i < |ws| ==> 0.0 < ws[i]
  }

  /** Later decisions extend earlier ones. */
  lemma {:induction false} PackExtends(ws: seq<real>, m: nat, i: nat, n: nat)
    requires 0 < m && i <= n <= |ws|
    ensures Pack(ws, m, n)[..i] == Pack(ws, m, i)
  {
    if i < n { PackExtends(ws, m, i, n - 1); }
  }

  lemma {:induction false} OpenedLoads(ws: seq<real>, owner: seq<nat>, k: nat, n: nat)
    requires n <= |ws| && n <= |owner| && AllPositive(ws)
    requires forall i :: 0 <= i < n ==> owner[i] == i
    ensures Load(ws, owner, k, n) == if k < n then ws[k] else 0.0
  {
    if n > 0 { OpenedLoads(ws, owner, k, n - 1); }
  }

  /** While shards are still empty, job i opens shard i. */
  lemma {:induction false} HeadsOpenShards(ws: seq<real>, m: nat, n: nat)
    requires 0 < m && n <= |ws| && n <= m && AllPositive(ws)
    ensures forall i :: 0 <= i < n ==> Pack(ws, m, n)[i] == i
  {
    if n > 0 {
      var owner := Pack(ws, m, n - 1);
      HeadsOpenShards(ws, m, n - 1);
      var loads := LoadsOf(ws, owner, m, n - 1);
      forall k: nat | k < m
        ensures loads[k] == if k < n - 1 then ws[k] else 0.0
      {
        OpenedLoads(ws, owner, k, n - 1);
      }
      assert loads[n - 1] == 0.0;
    }
  }

  /** Job i lands on a shard no later than its own rank, so shard k holds no job ranked before k. */
  lemma ShardOpensAtItsRank(ws: seq<real>, m: nat, i: nat)
    requires 0 < m && i < |ws| && AllPositive(ws)
    ensures Pack(ws, m, |ws|)[i] <= i
    ensures i < m ==> Pack(ws, m, |ws|)[i] == i
  {
    var owner := Pack(ws, m, |ws|);
    var heads := if m < |ws| then m else |ws|;
    HeadsOpenShards(ws, m, heads);
    PackExtends(ws, m, heads, |ws|);
    if i < m {
      assert owner[..heads][i] == i;
    }
  }
}
