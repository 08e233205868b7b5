/** Exchange refinement of the C++ target shards (scripts/ci_select_tests.py). */
module CppShards {
  import opened Markers
  import opened Order
  import opened Results
  import opened ShardBinpack
  import opened Sums
  import Greedy
  import Iteration

  const TOLERANCE := 0.000000001

  // ---- Loads ----

  function Loads(shards: seq<seq<string>>, w: Weights): (loads: seq<real>)
    ensures |loads| == |shards|
    ensures forall i :: 0 <= i < |shards| ==> loads[i] == ShardLoad(shards[i], w)
  {
    seq(|shards|, i requires 0 <= i < |shards| => ShardLoad(shards[i], w))
  }

  /** First index holding the greatest value. */
  function Heaviest(loads: seq<real>): (k: nat)
    requires loads != []
    ensures k < |loads|
    ensures forall i :: 0 <= i < |loads| ==> loads[i] <= loads[k]
    ensures forall i :: 0 <= i < k ==> loads[i] < loads[k]
  {
    if |loads| == 1 then 0
    else
      var k := Heaviest(loads[..|loads| - 1]);
      if loads[k] < loads[|loads| - 1] then |loads| - 1 else k
  }

  function MaxOf(loads: seq<real>): real
    requires loads != []
  {
    loads[Heaviest(loads)]
  }

  function MaxLoad(shards: seq<seq<string>>, w: Weights): real
    requires shards != []
  {
    MaxOf(Loads(shards, w))
  }

  function Source(shards: seq<seq<string>>, w: Weights): (k: nat)
    requires shards != []
    ensures k < |shards|
  {
    Heaviest(Loads(shards, w))
  }

  // ---- Moves ----

  /** Send target out of the heaviest shard and take bundle back from the destination. */
  datatype Move = Move(destination: nat, target: string, bundle: seq<string>)

  function Pairs(shard: seq<string>): seq<seq<string>> {
    if shard == [] then []
    else seq(|shard| - 1, j requires 0 <= j < |shard| - 1 => [shard[0], shard[j + 1]]) + Pairs(shard[1..])
  }

  /** Nothing, each single target, and each pair in the order of itertools.combinations. */
  function Bundles(shard: seq<string>): seq<seq<string>> {
    [[]] + seq(|shard|, i requires 0 <= i < |shard| => [shard[i]]) + Pairs(shard)
  }

  ghost predicate IsBundle(shard: seq<string>, bundle: seq<string>) {
    || bundle == []
    || (exists i :: 0 <= i < |shard| && bundle == [shard[i]])
    || (exists i, j :: 0 <= i < j < |shard| && bundle == [shard[i], shard[j]])
  }

  lemma {:induction false} PairsComplete(shard: seq<string>, bundle: seq<string>)
    ensures bundle in Pairs(shard) <==> exists i, j :: 0 <= i < j < |shard| && bundle == [shard[i], shard[j]]
  {
    if shard != [] {
      var rest := shard[1..];
      var heads := seq(|shard| - 1, j requires 0 <= j < |shard| - 1 => [shard[0], shard[j + 1]]);
      PairsComplete(rest, bundle);
      if bundle in heads {
        var j :| 0 <= j < |heads| && heads[j] == bundle;
        assert bundle == [shard[0], shard[j + 1]];
      }
      if bundle in Pairs(rest) {
        var i, j :| 0 <= i < j < |rest| && bundle == [rest[i], rest[j]];
        assert bundle == [shard[i + 1], shard[j + 1]];
      }
      if i, j :| 0 <= i < j < |shard| && bundle == [shard[i], shard[j]] {
        if i == 0 {
          assert heads[j - 1] == bundle;
        } else {
          assert bundle == [rest[i - 1], rest[j - 1]];
        }
      }
    }
  }

  lemma BundlesComplete(shard: seq<string>, bundle: seq<string>)
    ensures bundle in Bundles(shard) <==> IsBundle(shard, bundle)
  {
    PairsComplete(shard, bundle);
    var singles := seq(|shard|, i requires 0 <= i < |shard| => [shard[i]]);
    assert bundle in Bundles(shard) <==> bundle == [] || bundle in singles || bundle in Pairs(shard);
    if i :| 0 <= i < |shard| && bundle == [shard[i]] {
      assert singles[i] == bundle;
    }
  }

  function Transferred(w: Weights, mv: Move): real {
    w(mv.target) - ShardLoad(mv.bundle, w)
  }

  function Shifted(loads: seq<real>, source: nat, destination: nat, x: real): (r: seq<real>)
    requires source < |loads| && destination < |loads| && source != destination
    ensures |r| == |loads|
  {
    loads[source := loads[source] - x][destination := loads[destination] + x]
  }

  /** The exchanges that the three loops visit. */
  ghost predicate Offered(shards: seq<seq<string>>, w: Weights, mv: Move)
    requires shards != []
  {
    && mv.destination < |shards| && mv.destination != Source(shards, w)
    && mv.target in shards[Source(shards, w)]
    && mv.bundle in Bundles(shards[mv.destination])
  }

  function CandidateLoads(shards: seq<seq<string>>, w: Weights, mv: Move): (r: seq<real>)
    requires shards != [] && mv.destination < |shards| && mv.destination != Source(shards, w)
    ensures |r| == |shards|
  {
    Shifted(Loads(shards, w), Source(shards, w), mv.destination, Transferred(w, mv))
  }

  predicate Accepted(shards: seq<seq<string>>, w: Weights, mv: Move)
    requires shards != [] && mv.destination < |shards| && mv.destination != Source(shards, w)
  {
    && 0.0 < Transferred(w, mv)
    && MaxOf(CandidateLoads(shards, w, mv)) < MaxLoad(shards, w) - TOLERANCE
  }

  ghost predicate Admissible(shards: seq<seq<string>>, w: Weights, mv: Move)
    requires shards != []
  {
    Offered(shards, w, mv) && Accepted(shards, w, mv)
  }

  // ---- The order of candidates ----

  /** The candidate tuple: largest load, loads from large to small, and the move itself. */
  datatype Candidate = Candidate(largest: real, spread: seq<real>, move: Move)

  /** s lists the loads from large to small. */
  ghost predicate Falling(s: seq<real>, loads: seq<real>) {
    multiset(s) == multiset(loads) && forall i, j :: 0 <= i < j < |s| ==> s[i] >= s[j]
  }

  predicate GreaterEqual(a: real, b: real) { b <= a }

  function Spread(loads: seq<real>): (r: seq<real>)
    ensures Falling(r, loads)
  {
    assert TotalOrder(GreaterEqual);
    Sort(loads, GreaterEqual)
  }

  function Scored(shards: seq<seq<string>>, w: Weights, mv: Move): Candidate
    requires shards != [] && mv.destination < |shards| && mv.destination != Source(shards, w)
  {
    var loads := CandidateLoads(shards, w, mv);
    Candidate(MaxOf(loads), Spread(loads), mv)
  }

  predicate MoveLe(a: Move, b: Move) {
    if a.destination != b.destination then a.destination < b.destination
    else if a.target != b.target then PathLe(a.target, b.target)
    else LexLe(PathLe, a.bundle, b.bundle)
  }

  /** Comparison of the candidate tuples, component by component. */
  predicate CandidateLe(a: Candidate, b: Candidate) {
    if a.largest != b.largest then a.largest < b.largest
    else if a.spread != b.spread then LexLe(RealLe, a.spread, b.spread)
    else MoveLe(a.move, b.move)
  }

  lemma MoveOrder()
    ensures TotalOrder(MoveLe)
  {
    PathOrder();
    LexIsTotal(PathLe);
    assert forall a, b :: LexOrder(PathLe)(a, b) == LexLe(PathLe, a, b);
  }

  lemma CandidateOrder()
    ensures TotalOrder(CandidateLe)
  {
    MoveOrder();
    RealOrder();
    LexIsTotal(RealLe);
    assert forall a, b :: LexOrder(RealLe)(a, b) == LexLe(RealLe, a, b);
  }

  /** The move with the least candidate tuple. */
  ghost predicate IsBest(shards: seq<seq<string>>, w: Weights, best: Move)
    requires shards != []
  {
    && Admissible(shards, w, best)
    && forall mv :: Admissible(shards, w, mv) ==> CandidateLe(Scored(shards, w, best), Scored(shards, w, mv))
  }

  /** The candidate tuple names its move, so there is at most one best move. */
  lemma BestUnique(shards: seq<seq<string>>, w: Weights, a: Move, b: Move)
    requires shards != [] && IsBest(shards, w, a) && IsBest(shards, w, b)
    ensures a == b
  {
    CandidateOrder();
  }

  ghost predicate Improvable(shards: seq<seq<string>>, w: Weights)
    requires shards != []
  {
    exists mv :: Admissible(shards, w, mv)
  }

  ghost function AdmissibleMoves(shards: seq<seq<string>>, w: Weights): (moves: set<Move>)
    requires shards != []
    ensures forall mv :: mv in moves <==> Admissible(shards, w, mv)
  {
    set d, t, b | 0 <= d < |shards| && t in shards[Source(shards, w)] && b in Bundles(shards[d])
                  && Admissible(shards, w, Move(d, t, b)) :: Move(d, t, b)
  }

  lemma LeastMoveExists(shards: seq<seq<string>>, w: Weights, moves: set<Move>) returns (best: Move)
    requires shards != [] && moves != {}
    requires forall mv :: mv in moves ==> Admissible(shards, w, mv)
    ensures best in moves && Admissible(shards, w, best)
    ensures forall mv :: mv in moves ==> Admissible(shards, w, mv) && CandidateLe(Scored(shards, w, best), Scored(shards, w, mv))
  {
    var scored := set mv | mv in moves :: Scored(shards, w, mv);
    var some :| some in moves;
    assert Scored(shards, w, some) in scored;
    CandidateOrder();
    var least := LeastOf(scored, CandidateLe);
    best := least.move;
    forall mv | mv in moves
      ensures Admissible(shards, w, mv) && CandidateLe(Scored(shards, w, best), Scored(shards, w, mv))
    {
      assert Scored(shards, w, mv) in scored;
    }
  }

  ghost function BestMove(shards: seq<seq<string>>, w: Weights): (best: Move)
    requires shards != [] && Improvable(shards, w)
    ensures IsBest(shards, w, best)
  {
    assert exists mv :: IsBest(shards, w, mv) by {
      var best := LeastMoveExists(shards, w, AdmissibleMoves(shards, w));
      assert IsBest(shards, w, best);
    }
    var best :| IsBest(shards, w, best);
    best
  }

  // ---- The search ----

  ghost predicate Leads(shards: seq<seq<string>>, w: Weights, best: Option<Move>, tried: set<Move>)
    requires shards != []
  {
    forall mark: int {:trigger Opened(mark)} :: Opened(mark) ==> LeadsAmong(shards, w, best, tried)
  }

  /** best is the least accepted candidate among those tried. */
  ghost predicate LeadsAmong(shards: seq<seq<string>>, w: Weights, best: Option<Move>, tried: set<Move>)
    requires shards != []
  {
    && (best.Some? ==> best.value in tried)
    && forall mv {:trigger mv in tried} :: mv in tried ==> NotAfter(shards, w, best, mv)
  }

  /** best is an accepted candidate that does not come after mv; with none, mv is not accepted. */
  ghost predicate NotAfter(shards: seq<seq<string>>, w: Weights, best: Option<Move>, mv: Move)
    requires shards != []
  {
    && Offered(shards, w, mv)
    && match best
       case None => !Accepted(shards, w, mv)
       case Some(b) =>
         && Offered(shards, w, b) && Accepted(shards, w, b)
         && (Accepted(shards, w, mv) ==> CandidateLe(Scored(shards, w, b), Scored(shards, w, mv)))
  }

  lemma LeaderOffered(shards: seq<seq<string>>, w: Weights, best: Option<Move>, tried: set<Move>)
    requires shards != [] && Leads(shards, w, best, tried) && best.Some?
    ensures Offered(shards, w, best.value) && Accepted(shards, w, best.value)
  {
    assert Opened(0);
    assert NotAfter(shards, w, best, best.value);
  }

  lemma LeaderStays(shards: seq<seq<string>>, w: Weights, best: Option<Move>, tried: set<Move>, mv: Move)
    requires shards != [] && Leads(shards, w, best, tried) && Offered(shards, w, mv) && NotAfter(shards, w, best, mv)
    ensures Leads(shards, w, best, tried + {mv})
  {
    assert Opened(0);
  }

  lemma LeaderChanges(shards: seq<seq<string>>, w: Weights, best: Option<Move>, tried: set<Move>, mv: Move)
    requires shards != [] && Leads(shards, w, best, tried) && Offered(shards, w, mv) && Accepted(shards, w, mv)
    requires best.Some? ==> NotAfter(shards, w, Some(mv), best.value)
    ensures Leads(shards, w, Some(mv), tried + {mv})
  {
    assert Opened(0);
    CandidateOrder();
    forall other | other in tried
      ensures NotAfter(shards, w, Some(mv), other)
    {
      assert NotAfter(shards, w, best, other);
    }
  }

  method Consider(shards: seq<seq<string>>, w: Weights, mv: Move, best: Option<Move>, ghost tried: set<Move>)
    returns (next: Option<Move>)
    requires shards != [] && Offered(shards, w, mv) && Leads(shards, w, best, tried)
    ensures Leads(shards, w, next, tried + {mv})
  {
    next := best;
    if best.Some? {
      LeaderOffered(shards, w, best, tried);
    }
    if Transferred(w, mv) <= 0.0 {
      LeaderStays(shards, w, best, tried, mv);
      return;
    }
    if MaxOf(CandidateLoads(shards, w, mv)) >= MaxLoad(shards, w) - TOLERANCE {
      LeaderStays(shards, w, best, tried, mv);
      return;
    }
    if best.None? || !CandidateLe(Scored(shards, w, best.value), Scored(shards, w, mv)) {
      CandidateOrder();
      LeaderChanges(shards, w, best, tried, mv);
      next := Some(mv);
    } else {
      LeaderStays(shards, w, best, tried, mv);
    }
  }

  method ScanTarget(shards: seq<seq<string>>, w: Weights, destination: nat, target: string,
                    bundles: seq<seq<string>>, best: Option<Move>, ghost tried: set<Move>)
    returns (next: Option<Move>, ghost seen: set<Move>)
    requires shards != [] && destination < |shards| && destination != Source(shards, w)
    requires target in shards[Source(shards, w)] && bundles == Bundles(shards[destination])
    requires Leads(shards, w, best, tried)
    ensures Leads(shards, w, next, seen) && tried <= seen
    ensures forall b :: b in bundles ==> Move(destination, target, b) in seen
  {
    next, seen := best, tried;
    for j := 0 to |bundles|
      invariant Leads(shards, w, next, seen) && tried <= seen
      invariant forall i :: 0 <= i < j ==> Move(destination, target, bundles[i]) in seen
    {
      var mv := Move(destination, target, bundles[j]);
      assert bundles[j] in bundles;
      next := Consider(shards, w, mv, next, seen);
      seen := seen + {mv};
    }
  }

  method ScanDestination(shards: seq<seq<string>>, w: Weights, destination: nat, best: Option<Move>,
                         ghost tried: set<Move>)
    returns (next: Option<Move>, ghost seen: set<Move>)
    requires shards != [] && destination < |shards| && destination != Source(shards, w)
    requires Leads(shards, w, best, tried)
    ensures Leads(shards, w, next, seen) && tried <= seen
    ensures forall mv :: Offered(shards, w, mv) && mv.destination == destination ==> mv in seen
  {
    var bundles := Bundles(shards[destination]);
    var from := shards[Source(shards, w)];
    next, seen := best, tried;
    for i := 0 to |from|
      invariant Leads(shards, w, next, seen) && tried <= seen
      invariant forall t, b :: t in from[..i] && b in bundles ==> Move(destination, t, b) in seen
    {
      next, seen := ScanTarget(shards, w, destination, from[i], bundles, next, seen);
    }
  }

  method BestExchange(shards: seq<seq<string>>, w: Weights) returns (best: Option<Move>)
    requires shards != []
    ensures best.None? <==> !Improvable(shards, w)
    ensures best.Some? ==> best.value == BestMove(shards, w)
    ensures best.Some? ==> Exchangeable(shards, w, best.value)
                           && forall mv :: Exchangeable(shards, w, mv) ==> Preferred(shards, w, best.value, mv)
  {
    best := None;
    ghost var seen: set<Move> := {};
    for destination := 0 to |shards|
      invariant Leads(shards, w, best, seen)
      invariant forall mv :: Offered(shards, w, mv) && mv.destination < destination ==> mv in seen
    {
      if destination != Source(shards, w) {
        best, seen := ScanDestination(shards, w, destination, best, seen);
      }
    }
    assert Opened(0);
    if best.Some? {
      assert IsBest(shards, w, best.value);
      BestUnique(shards, w, best.value, BestMove(shards, w));
      PreferredIsBest(shards, w, best.value);
    }
  }

  lemma PreferredIsBest(shards: seq<seq<string>>, w: Weights, best: Move)
    requires shards != [] && IsBest(shards, w, best)
    ensures Exchangeable(shards, w, best) && forall mv :: Exchangeable(shards, w, mv) ==> Preferred(shards, w, best, mv)
  {
    OfferedIsExchangeable(shards, w, best);
    forall mv | Exchangeable(shards, w, mv)
      ensures Preferred(shards, w, best, mv)
    {
      BestIsPreferred(shards, w, best, mv);
    }
  }

  // ---- Applying a move ----

  function RemoveFirst(s: seq<string>, x: string): (r: seq<string>)
    ensures x in s ==> multiset(r) == multiset(s) - multiset{x}
    ensures x !in s ==> r == s
  {
    if s == [] then []
    else
      assert s == [s[0]] + s[1..];
      if s[0] == x then s[1..] else [s[0]] + RemoveFirst(s[1..], x)
  }

  function Without(s: seq<string>, bundle: seq<string>): seq<string>
    decreases |bundle|
  {
    if bundle == [] then s
    else Without(RemoveFirst(s, bundle[0]), bundle[1..])
  }

  /** The shard lists after the exchange. */
  function Applied(shards: seq<seq<string>>, source: nat, mv: Move): (r: seq<seq<string>>)
    requires source < |shards| && mv.destination < |shards| && mv.destination != source
    ensures |r| == |shards|
  {
    shards[source := SortPaths(RemoveFirst(shards[source], mv.target) + mv.bundle)]
          [mv.destination := SortPaths(Without(shards[mv.destination] + [mv.target], mv.bundle))]
  }

  method Exchange(shards: seq<seq<string>>, source: nat, mv: Move) returns (r: seq<seq<string>>)
    requires source < |shards| && mv.destination < |shards| && mv.destination != source
    ensures r == Applied(shards, source, mv)
  {
    var from := RemoveFirst(shards[source], mv.target);
    var to := shards[mv.destination] + [mv.target];
    from, to := HandBack(from, to, mv.bundle);
    r := shards[source := SortPaths(from)][mv.destination := SortPaths(to)];
  }

  method HandBack(from: seq<string>, to: seq<string>, bundle: seq<string>)
    returns (grown: seq<string>, shrunk: seq<string>)
    ensures grown == from + bundle && shrunk == Without(to, bundle)
  {
    grown, shrunk := from, to;
    for i := 0 to |bundle|
      invariant grown == from + bundle[..i]
      invariant Without(shrunk, bundle[i..]) == Without(to, bundle)
    {
      assert bundle[i..][1..] == bundle[i + 1..];
      shrunk := RemoveFirst(shrunk, bundle[i]);
      grown := grown + [bundle[i]];
    }
    assert bundle[..|bundle|] == bundle && bundle[|bundle|..] == [];
  }

  // ---- The bounded refinement ----

  /** The next state, or None when no exchange is accepted. */
  ghost function Step(shards: seq<seq<string>>, w: Weights): (r: Option<seq<seq<string>>>)
    ensures r.Some? ==> |r.value| == |shards|
  {
    if shards == [] || !Improvable(shards, w) then None
    else Some(Applied(shards, Source(shards, w), BestMove(shards, w)))
  }

  ghost function Stepper(w: Weights): seq<seq<string>> -> Option<seq<seq<string>>> {
    shards => Step(shards, w)
  }

  /** At most n exchanges, stopping at the first state that none improves. */
  ghost function Refined(shards: seq<seq<string>>, w: Weights, n: nat): seq<seq<string>> {
    Iteration.Iterate(Stepper(w), shards, n)
  }

  /** step is the exchange step; the trigger keeps its definition out of the loop below. */
  ghost predicate IsStepper(step: seq<seq<string>> -> Option<seq<seq<string>>>, w: Weights) {
    forall shards {:trigger Step(shards, w)} :: step(shards) == Step(shards, w)
  }

  method ExchangeOnce(shards: seq<seq<string>>, w: Weights,
                      ghost step: seq<seq<string>> -> Option<seq<seq<string>>>)
    returns (next: Option<seq<seq<string>>>)
    requires shards != [] && IsStepper(step, w)
    ensures next == step(shards)
    ensures next.Some? ==> |next.value| == |shards|
  {
    var best := BestExchange(shards, w);
    assert step(shards) == Step(shards, w);
    if best.None? {
      return None;
    }
    var exchanged := Exchange(shards, Source(shards, w), best.value);
    return Some(exchanged);
  }

  method RefineBy(initial: seq<seq<string>>, w: Weights,
                  ghost step: seq<seq<string>> -> Option<seq<seq<string>>>)
    returns (shards: seq<seq<string>>)
    requires initial != [] && IsStepper(step, w)
    ensures shards == Iteration.Iterate(step, initial, |Content(initial)|)
  {
    shards := initial;
    var left := CountTargets(initial);
    while left > 0
      invariant shards != []
      invariant Iteration.Iterate(step, shards, left) == Iteration.Iterate(step, initial, |Content(initial)|)
    {
      var next := ExchangeOnce(shards, w, step);
      if next.None? {
        break;
      }
      shards := next.value;
      left := left - 1;
    }
  }

  method Refine(initial: seq<seq<string>>, w: Weights) returns (shards: seq<seq<string>>)
    requires initial != []
    ensures shards == Refined(initial, w, |Content(initial)|)
  {
    shards := RefineBy(initial, w, Stepper(w));
  }

  method CountTargets(shards: seq<seq<string>>) returns (n: nat)
    ensures n == |Content(shards)|
  {
    n := 0;
    for i := 0 to |shards|
      invariant n == |ContentOfFirst(shards, i)|
    {
      n := n + |shards[i]|;
    }
  }

  // ---- What one exchange does ----

  /** Any one-for-zero, one or two exchange out of the heaviest shard, with the bundle in either order. */
  ghost predicate Exchangeable(shards: seq<seq<string>>, w: Weights, mv: Move)
    requires shards != []
  {
    && mv.destination < |shards| && mv.destination != Source(shards, w)
    && mv.target in shards[Source(shards, w)]
    && |mv.bundle| <= 2
    && multiset(mv.bundle) <= multiset(shards[mv.destination])
  }

  lemma BundleWithin(shard: seq<string>, bundle: seq<string>)
    requires IsBundle(shard, bundle)
    ensures |bundle| <= 2 && multiset(bundle) <= multiset(shard)
  {
    if i :| 0 <= i < |shard| && bundle == [shard[i]] {
      assert shard[i] in shard;
    } else if i, j :| 0 <= i < j < |shard| && bundle == [shard[i], shard[j]] {
      TwoWithin(shard, i, j);
    }
  }

  lemma TwoWithin(shard: seq<string>, i: nat, j: nat)
    requires i < j < |shard|
    ensures multiset([shard[i], shard[j]]) <= multiset(shard)
  {
    var front, back := shard[..j], shard[j..];
    assert shard == front + back;
    var x, y := front[i], back[0];
    assert x in multiset(front) && y in multiset(back);
    assert multiset([x, y]) == multiset{x} + multiset{y};
  }

  lemma OfferedIsExchangeable(shards: seq<seq<string>>, w: Weights, mv: Move)
    requires shards != [] && Offered(shards, w, mv)
    ensures Exchangeable(shards, w, mv)
  {
    BundlesComplete(shards[mv.destination], mv.bundle);
    BundleWithin(shards[mv.destination], mv.bundle);
  }

  lemma {:induction false} WithoutMultiset(s: seq<string>, bundle: seq<string>)
    requires multiset(bundle) <= multiset(s)
    ensures multiset(Without(s, bundle)) == multiset(s) - multiset(bundle)
    decreases |bundle|
  {
    if bundle != [] {
      TailMultiset(bundle);
      assert bundle[0] in multiset(bundle);
      WithoutMultiset(RemoveFirst(s, bundle[0]), bundle[1..]);
    }
  }

  /** A shard that gives up some targets and takes others changes its load by exactly their weights. */
  lemma LoadOfExchange(before: seq<string>, after: seq<string>, gone: seq<string>, gained: seq<string>, w: Weights)
    requires multiset(gone) <= multiset(before)
    requires multiset(after) == multiset(before) - multiset(gone) + multiset(gained)
    ensures ShardLoad(after, w) == ShardLoad(before, w) - ShardLoad(gone, w) + ShardLoad(gained, w)
  {
    assert multiset(after + gone) == multiset(before + gained);
    SumPermutation(after + gone, before + gained, w);
    SumAppend(after, gone, w);
    SumAppend(before, gained, w);
  }

  /** The two rewritten shards, as multisets. */
  lemma AppliedShards(shards: seq<seq<string>>, source: nat, mv: Move)
    requires source < |shards| && mv.destination < |shards| && mv.destination != source
    requires mv.target in shards[source] && multiset(mv.bundle) <= multiset(shards[mv.destination])
    ensures var next := Applied(shards, source, mv);
            && multiset(next[source]) == multiset(shards[source]) - multiset{mv.target} + multiset(mv.bundle)
            && multiset(next[mv.destination])
               == multiset(shards[mv.destination]) - multiset(mv.bundle) + multiset{mv.target}
  {
    var grown := shards[mv.destination] + [mv.target];
    assert multiset(grown) == multiset(shards[mv.destination]) + multiset{mv.target};
    WithoutMultiset(grown, mv.bundle);
    var next := Applied(shards, source, mv);
    assert next[source] == SortPaths(RemoveFirst(shards[source], mv.target) + mv.bundle);
  }

  /** The exchange realises the candidate loads. */
  lemma AppliedLoads(shards: seq<seq<string>>, source: nat, mv: Move, w: Weights)
    requires source < |shards| && mv.destination < |shards| && mv.destination != source
    requires mv.target in shards[source] && multiset(mv.bundle) <= multiset(shards[mv.destination])
    ensures Loads(Applied(shards, source, mv), w)
            == Shifted(Loads(shards, w), source, mv.destination, Transferred(w, mv))
  {
    var next := Applied(shards, source, mv);
    AppliedShards(shards, source, mv);
    LoadsAfterExchange(shards, next, source, mv, w);
  }

  lemma LoadsAfterExchange(shards: seq<seq<string>>, next: seq<seq<string>>, source: nat, mv: Move, w: Weights)
    requires source < |shards| == |next| && mv.destination < |shards| && mv.destination != source
    requires mv.target in shards[source] && multiset(mv.bundle) <= multiset(shards[mv.destination])
    requires multiset(next[source]) == multiset(shards[source]) - multiset{mv.target} + multiset(mv.bundle)
    requires multiset(next[mv.destination])
             == multiset(shards[mv.destination]) - multiset(mv.bundle) + multiset{mv.target}
    requires forall i :: 0 <= i < |shards| && i != source && i != mv.destination ==> next[i] == shards[i]
    ensures Loads(next, w) == Shifted(Loads(shards, w), source, mv.destination, Transferred(w, mv))
  {
    var d := mv.destination;
    LoadsOfExchanged(shards[source], next[source], shards[d], next[d], mv, w);
    LoadsShifted(shards, next, source, d, Transferred(w, mv), w);
  }

  lemma LoadsShifted(shards: seq<seq<string>>, next: seq<seq<string>>, source: nat, d: nat, x: real, w: Weights)
    requires source < |shards| == |next| && d < |shards| && d != source
    requires ShardLoad(next[source], w) == ShardLoad(shards[source], w) - x
    requires ShardLoad(next[d], w) == ShardLoad(shards[d], w) + x
    requires forall i :: 0 <= i < |shards| && i != source && i != d ==> next[i] == shards[i]
    ensures Loads(next, w) == Shifted(Loads(shards, w), source, d, x)
  {
    var loads, before := Loads(next, w), Loads(shards, w);
    forall i | 0 <= i < |shards|
      ensures loads[i] == Shifted(before, source, d, x)[i]
    {
      assert i != source && i != d ==> next[i] == shards[i];
    }
  }

  lemma LoadsOfExchanged(from: seq<string>, from': seq<string>, to: seq<string>, to': seq<string>, mv: Move, w: Weights)
    requires mv.target in from && multiset(mv.bundle) <= multiset(to)
    requires multiset(from') == multiset(from) - multiset{mv.target} + multiset(mv.bundle)
    requires multiset(to') == multiset(to) - multiset(mv.bundle) + multiset{mv.target}
    ensures ShardLoad(from', w) == ShardLoad(from, w) - Transferred(w, mv)
    ensures ShardLoad(to', w) == ShardLoad(to, w) + Transferred(w, mv)
  {
    LoadOfExchange(from, from', [mv.target], mv.bundle, w);
    LoadOfExchange(to, to', mv.bundle, [mv.target], w);
    SumSingleton(mv.target, w);
  }

  /** The exchange moves no target in or out of the partition. */
  lemma AppliedContent(shards: seq<seq<string>>, source: nat, mv: Move)
    requires source < |shards| && mv.destination < |shards| && mv.destination != source
    requires mv.target in shards[source] && multiset(mv.bundle) <= multiset(shards[mv.destination])
    ensures Content(Applied(shards, source, mv)) == Content(shards)
  {
    var d := mv.destination;
    var next := Applied(shards, source, mv);
    AppliedShards(shards, source, mv);
    ExchangedContent(shards, source, next[source], d, next[d], [mv.target], mv.bundle);
  }

  /** Two lists that trade elements keep the content of the whole. */
  lemma ExchangedContent(shards: seq<seq<string>>, j: nat, x: seq<string>, k: nat, y: seq<string>,
                         out: seq<string>, back: seq<string>)
    requires j < |shards| && k < |shards| && j != k
    requires multiset(out) <= multiset(shards[j]) && multiset(back) <= multiset(shards[k])
    requires multiset(x) == multiset(shards[j]) - multiset(out) + multiset(back)
    requires multiset(y) == multiset(shards[k]) - multiset(back) + multiset(out)
    ensures Content(shards[j := x][k := y]) == Content(shards)
  {
    forall f
      ensures Content(shards[j := x][k := y])[f] == Content(shards)[f]
    {
      CountReplaceTwo(shards, j, x, k, y, f);
      CountExchanged(shards[j], x, shards[k], y, out, back, f);
    }
  }

  lemma CountReplaceTwo(shards: seq<seq<string>>, j: nat, x: seq<string>, k: nat, y: seq<string>, f: string)
    requires j < |shards| && k < |shards| && j != k
    ensures Content(shards[j := x][k := y])[f] + multiset(shards[j])[f] + multiset(shards[k])[f]
            == Content(shards)[f] + multiset(x)[f] + multiset(y)[f]
  {
    CountReplace(shards, j, x, |shards|, f);
    CountReplace(shards[j := x], k, y, |shards|, f);
  }

  lemma CountExchanged(s: seq<string>, s': seq<string>, d: seq<string>, d': seq<string>,
                       out: seq<string>, back: seq<string>, f: string)
    requires multiset(out) <= multiset(s) && multiset(back) <= multiset(d)
    requires multiset(s') == multiset(s) - multiset(out) + multiset(back)
    requires multiset(d') == multiset(d) - multiset(back) + multiset(out)
    ensures multiset(s')[f] + multiset(d')[f] == multiset(s)[f] + multiset(d)[f]
  {}

  ghost predicate EachSorted(shards: seq<seq<string>>) {
    forall k :: 0 <= k < |shards| ==> Sorted(shards[k], PathLe)
  }

  /** One accepted exchange keeps an exact, sorted partition and lowers the largest load by more than the tolerance. */
  lemma StepImproves(shards: seq<seq<string>>, w: Weights)
    requires Step(shards, w).Some?
    ensures var next := Step(shards, w).value;
            && next != []
            && Content(next) == Content(shards)
            && MaxLoad(next, w) < MaxLoad(shards, w) - 0.000000001
            && (EachSorted(shards) ==> EachSorted(next))
  {
    var best := BestMove(shards, w);
    OfferedIsExchangeable(shards, w, best);
    AppliedContent(shards, Source(shards, w), best);
    AppliedMaximum(shards, w, best);
  }

  /** An acceptable exchange lowers the largest load. */
  lemma AppliedMaximum(shards: seq<seq<string>>, w: Weights, mv: Move)
    requires shards != [] && Offered(shards, w, mv) && Accepted(shards, w, mv)
    ensures MaxLoad(Applied(shards, Source(shards, w), mv), w) < MaxLoad(shards, w) - TOLERANCE
  {
    OfferedIsExchangeable(shards, w, mv);
    AppliedLoads(shards, Source(shards, w), mv, w);
  }

  // ---- When the search stops ----

  lemma MaxAtLeast(loads: seq<real>, i: nat)
    requires i < |loads|
    ensures loads[i] <= MaxOf(loads)
  {}

  /** A pair may be handed back in either order: some offered move has the same effect on the loads. */
  lemma OfferedTwin(shards: seq<seq<string>>, w: Weights, mv: Move) returns (twin: Move)
    requires shards != [] && Exchangeable(shards, w, mv)
    ensures Offered(shards, w, twin) && twin.destination == mv.destination
    ensures Transferred(w, twin) == Transferred(w, mv)
  {
    var to := shards[mv.destination];
    var bundle := mv.bundle;
    twin := mv;
    if |bundle| == 1 {
      assert bundle[0] in multiset(bundle);
      assert bundle == [bundle[0]];
      assert IsBundle(to, bundle);
    } else if |bundle| == 2 {
      assert bundle == [bundle[0], bundle[1]];
      var i, j := TwoPlaces(to, bundle[0], bundle[1]);
      if j < i {
        twin := mv.(bundle := [to[j], to[i]]);
        SwappedPair(to[j], to[i], w);
      }
      assert IsBundle(to, twin.bundle);
    }
    BundlesComplete(to, twin.bundle);
  }

  lemma SwappedPair(a: string, b: string, w: Weights)
    ensures ShardLoad([a, b], w) == ShardLoad([b, a], w)
  {
    assert multiset([a, b]) == multiset([b, a]);
    SumPermutation([a, b], [b, a], w);
  }

  lemma TwoPlaces(s: seq<string>, a: string, b: string) returns (i: nat, j: nat)
    requires multiset([a, b]) <= multiset(s)
    ensures i < |s| && j < |s| && i != j && s[i] == a && s[j] == b
  {
    assert multiset([a, b]) == multiset{a, b};
    assert a in multiset(s);
    i :| 0 <= i < |s| && s[i] == a;
    RemoveAtMultiset(s, i);
    assert b in multiset(RemoveAt(s, i));
    var at :| 0 <= at < |RemoveAt(s, i)| && RemoveAt(s, i)[at] == b;
    j := if at < i then at else at + 1;
  }

  lemma NoGainWithoutTransfer(shards: seq<seq<string>>, w: Weights, mv: Move)
    requires shards != [] && mv.destination < |shards| && mv.destination != Source(shards, w)
    requires Transferred(w, mv) <= 0.0
    ensures MaxLoad(shards, w) <= MaxOf(CandidateLoads(shards, w, mv))
  {
    MaxAtLeast(CandidateLoads(shards, w, mv), Source(shards, w));
  }

  /** The search stops exactly at the states that no exchange improves by more than the tolerance; skipping
      the moves that transfer nothing loses none of them. */
  lemma StopsExactlyWhenLocallyOptimal(shards: seq<seq<string>>, w: Weights)
    requires shards != []
    ensures Step(shards, w).None?
            <==> forall mv :: Exchangeable(shards, w, mv) ==>
                   MaxLoad(shards, w) - 0.000000001 <= MaxLoad(Applied(shards, Source(shards, w), mv), w)
  {
    if Step(shards, w).None? {
      forall mv | Exchangeable(shards, w, mv)
        ensures MaxLoad(shards, w) - TOLERANCE <= MaxLoad(Applied(shards, Source(shards, w), mv), w)
      {
        AppliedLoads(shards, Source(shards, w), mv, w);
        if Transferred(w, mv) <= 0.0 {
          NoGainWithoutTransfer(shards, w, mv);
        } else {
          var twin := OfferedTwin(shards, w, mv);
          assert !Admissible(shards, w, twin);
          assert CandidateLoads(shards, w, twin) == CandidateLoads(shards, w, mv);
        }
      }
    } else {
      var best := BestMove(shards, w);
      OfferedIsExchangeable(shards, w, best);
      AppliedLoads(shards, Source(shards, w), best, w);
    }
  }

  // ---- Which exchange is taken ----

  /** From large to small, a is less than b at the first place where they differ. */
  ghost predicate SpreadBefore(a: seq<real>, b: seq<real>) {
    exists x, y :: Falling(x, a) && Falling(y, b) && FirstDiffers((p: real, q: real) => p < q, x, y)
  }

  /** Destination, then target, then bundle. */
  ghost predicate MoveBefore(a: Move, b: Move) {
    || a.destination < b.destination
    || (a.destination == b.destination && Before(a.target, b.target))
    || (a.destination == b.destination && a.target == b.target && FirstDiffers((x, y) => Before(x, y), a.bundle, b.bundle))
  }

  /** What the loads after a are to those after b: a smaller maximum; with equal maxima, earlier from large to small; and
      with the same loads and a bundle in the order of its shard, the earlier move. */
  ghost predicate Preferred(shards: seq<seq<string>>, w: Weights, a: Move, b: Move)
    requires shards != [] && Exchangeable(shards, w, a) && Exchangeable(shards, w, b)
  {
    var after := Loads(Applied(shards, Source(shards, w), a), w);
    var other := Loads(Applied(shards, Source(shards, w), b), w);
    || MaxOf(after) < MaxOf(other)
    || (MaxOf(after) == MaxOf(other) && SpreadBefore(after, other))
    || (multiset(after) == multiset(other) && (IsBundle(shards[b.destination], b.bundle) ==> a == b || MoveBefore(a, b)))
  }

  lemma BundleLeExactly(a: seq<string>, b: seq<string>)
    ensures LexLe(PathLe, a, b) <==> a == b || FirstDiffers((x, y) => Before(x, y), a, b)
  {
    forall x, y
      ensures Before(x, y) <==> PathLe(x, y) && x != y
    {
      PathLeExactly(x, y);
      NotBeforeItself(x);
    }
    LexExactly(PathLe, (x, y) => Before(x, y), a, b);
  }

  lemma NotBeforeItself(s: string)
    ensures !Before(s, s)
  {}

  lemma MoveLeExactly(a: Move, b: Move)
    ensures MoveLe(a, b) <==> a == b || MoveBefore(a, b)
  {
    PathLeExactly(a.target, b.target);
    NotBeforeItself(a.target);
    BundleLeExactly(a.bundle, b.bundle);
  }

  lemma SpreadLeExactly(a: seq<real>, b: seq<real>)
    requires LexLe(RealLe, Spread(a), Spread(b)) && Spread(a) != Spread(b)
    ensures SpreadBefore(a, b)
  {
    LexExactly(RealLe, (p: real, q: real) => p < q, Spread(a), Spread(b));
  }

  /** What the candidate order says of the loads that two exchanges leave. */
  lemma CandidatePreferred(shards: seq<seq<string>>, w: Weights, a: Move, b: Move)
    requires shards != [] && Exchangeable(shards, w, a) && Exchangeable(shards, w, b)
    requires CandidateLe(Scored(shards, w, a), Scored(shards, w, b))
    ensures Preferred(shards, w, a, b)
  {
    AppliedLoads(shards, Source(shards, w), a, w);
    AppliedLoads(shards, Source(shards, w), b, w);
    var x, y := CandidateLoads(shards, w, a), CandidateLoads(shards, w, b);
    if MaxOf(x) == MaxOf(y) {
      if Spread(x) == Spread(y) {
        MoveLeExactly(a, b);
      } else {
        SpreadLeExactly(x, y);
      }
    }
  }

  /** The chosen exchange is preferred to every other one. */
  lemma BestIsPreferred(shards: seq<seq<string>>, w: Weights, best: Move, mv: Move)
    requires shards != [] && IsBest(shards, w, best) && Exchangeable(shards, w, mv)
    ensures Exchangeable(shards, w, best) && Preferred(shards, w, best, mv)
  {
    OfferedIsExchangeable(shards, w, best);
    AppliedLoads(shards, Source(shards, w), best, w);
    AppliedLoads(shards, Source(shards, w), mv, w);
    if Transferred(w, mv) <= 0.0 {
      NoGainWithoutTransfer(shards, w, mv);
    } else if MaxOf(CandidateLoads(shards, w, mv)) < MaxLoad(shards, w) - TOLERANCE {
      AcceptedIsLess(shards, w, best, mv);
    }
  }

  lemma AcceptedIsLess(shards: seq<seq<string>>, w: Weights, best: Move, mv: Move)
    requires shards != [] && IsBest(shards, w, best) && Exchangeable(shards, w, best) && Exchangeable(shards, w, mv)
    requires Accepted(shards, w, mv)
    ensures Preferred(shards, w, best, mv)
  {
    if IsBundle(shards[mv.destination], mv.bundle) {
      BundlesComplete(shards[mv.destination], mv.bundle);
      CandidatePreferred(shards, w, best, mv);
    } else {
      var twin := OfferedTwin(shards, w, mv);
      assert CandidateLoads(shards, w, twin) == CandidateLoads(shards, w, mv);
      OfferedIsExchangeable(shards, w, twin);
      CandidatePreferred(shards, w, best, twin);
      AppliedLoads(shards, Source(shards, w), twin, w);
      AppliedLoads(shards, Source(shards, w), mv, w);
    }
  }

  /** The exchange that a step makes is preferred to every other one. */
  lemma StepPrefers(shards: seq<seq<string>>, w: Weights) returns (best: Move)
    requires Step(shards, w).Some?
    ensures shards != [] && Exchangeable(shards, w, best) && Step(shards, w) == Some(Applied(shards, Source(shards, w), best))
    ensures forall mv :: Exchangeable(shards, w, mv) ==> Preferred(shards, w, best, mv)
  {
    best := BestMove(shards, w);
    PreferredIsBest(shards, w, best);
  }

  // ---- Whole runs ----

  /** What a run keeps: the targets, the path order inside shards, and the largest load as an upper bound. */
  ghost predicate Keeps(w: Weights, before: seq<seq<string>>, after: seq<seq<string>>) {
    && |after| == |before|
    && Content(after) == Content(before)
    && (EachSorted(before) ==> EachSorted(after))
    && (before != [] ==> MaxLoad(after, w) <= MaxLoad(before, w))
  }

  ghost function Keeper(w: Weights): (seq<seq<string>>, seq<seq<string>>) -> bool {
    (before, after) => Keeps(w, before, after)
  }

  lemma RunKeeps(shards: seq<seq<string>>, w: Weights, n: nat)
    ensures Keeps(w, shards, Refined(shards, w, n))
  {
    forall a: seq<seq<string>> | Stepper(w)(a).Some?
      ensures Keeper(w)(a, Stepper(w)(a).value)
    {
      StepImproves(a, w);
    }
    Iteration.IterateKeeps(Stepper(w), Keeper(w), shards, n);
  }

  ghost function Critical(w: Weights): seq<seq<string>> -> real {
    shards => if shards == [] then 0.0 else MaxLoad(shards, w)
  }

  lemma StepsCost(w: Weights)
    requires Positive(w)
    ensures forall a: seq<seq<string>> :: 0.0 <= Critical(w)(a)
    ensures forall a: seq<seq<string>> ::
              Stepper(w)(a).Some? ==> Critical(w)(Stepper(w)(a).value) + TOLERANCE <= Critical(w)(a)
  {
    forall a: seq<seq<string>>
      ensures 0.0 <= Critical(w)(a)
      ensures Stepper(w)(a).Some? ==> Critical(w)(Stepper(w)(a).value) + TOLERANCE <= Critical(w)(a)
    {
      if a != [] { SumNonNegative(a[Source(a, w)], w); }
      if Stepper(w)(a).Some? { StepImproves(a, w); }
    }
  }

  /** A run of n exchanges either ends where no exchange is accepted or has lowered the largest load by at
      least n tolerances. */
  lemma OptimalOrPaidFor(shards: seq<seq<string>>, w: Weights, n: nat)
    requires Positive(w)
    ensures Iteration.StoppedOrPaid(Stepper(w), Critical(w), TOLERANCE, shards, n)
  {
    StepsCost(w);
    Iteration.IterationPays(Stepper(w), Critical(w), TOLERANCE, shards, n);
  }

  /** Without its cap the loop would still reach a state with no accepted exchange. */
  lemma UncappedRunStops(shards: seq<seq<string>>, w: Weights) returns (n: nat)
    requires Positive(w)
    ensures Step(Refined(shards, w, n), w).None?
  {
    StepsCost(w);
    n := Iteration.IterationStops(Stepper(w), Critical(w), TOLERANCE, shards);
  }

  // ---- cpp_target_shards ----

  datatype ShardError =
    | InvalidTotal
    | DuplicateTargets
    | MissingWeights
    | Unbalanced(error: PartitionError)

  const CTEST_PARALLEL_JOBS := 4.0

  /** A loaded duration file: load_durations rejects every value that is not positive. */
  ghost predicate Catalog(durations: map<string, real>) {
    forall t :: t in durations ==> 0.0 < durations[t]
  }

  /** Modelled seconds of a target; targets outside a catalog never reach the packer. */
  function Cost(build: map<string, real>, test: map<string, real>): Weights {
    t => if t in build && t in test then build[t] + test[t] / CTEST_PARALLEL_JOBS else 1.0
  }

  function CostTable(targets: seq<string>, build: map<string, real>, test: map<string, real>): (table: Durations)
    requires forall t :: t in targets ==> t in build && t in test
  {
    if targets == [] then []
    else [(targets[0], build[targets[0]] + test[targets[0]] / CTEST_PARALLEL_JOBS)]
         + CostTable(targets[1..], build, test)
  }

  lemma {:induction false} TableHolds(targets: seq<string>, build: map<string, real>, test: map<string, real>, t: string)
    requires forall t :: t in targets ==> t in build && t in test
    requires t in targets
    ensures Lookup(CostTable(targets, build, test), t) == Some(build[t] + test[t] / CTEST_PARALLEL_JOBS)
  {
    if targets[0] != t {
      TableHolds(targets[1..], build, test, t);
      assert CostTable(targets, build, test)[1..] == CostTable(targets[1..], build, test);
    }
  }

  lemma TableWeights(targets: seq<string>, build: map<string, real>, test: map<string, real>)
    requires forall t :: t in targets ==> t in build && t in test
    requires Catalog(build) && Catalog(test)
    ensures SameWeights(targets, Weigh(CostTable(targets, build, test)), Cost(build, test))
    ensures forall t :: t in targets ==> Cost(build, test)(t) == build[t] + test[t] / 4.0
  {
    forall t | t in targets
      ensures Weigh(CostTable(targets, build, test))(t) == Cost(build, test)(t)
    {
      TableHolds(targets, build, test, t);
    }
  }

  /** The refined LPT partition of a target list. */
  ghost function TargetShards(targets: seq<string>, total: nat, w: Weights): seq<seq<string>>
    requires 0 < total
  {
    Refined(LptShards(targets, total, w), w, |Content(LptShards(targets, total, w))|)
  }

  lemma TargetShardsCover(targets: seq<string>, total: nat, w: Weights)
    requires 0 < total
    ensures |TargetShards(targets, total, w)| == total
    ensures Covers(TargetShards(targets, total, w), targets)
    ensures EachSorted(TargetShards(targets, total, w))
  {
    LptCovers(targets, total, w);
    var lpt := LptShards(targets, total, w);
    RunKeeps(lpt, w, |Content(lpt)|);
  }

  lemma KeptAll(files: seq<string>)
    ensures Kept(files, []) == files
  {}

  lemma CatalogCosts(build: map<string, real>, test: map<string, real>)
    requires Catalog(build) && Catalog(test)
    ensures Positive(Cost(build, test))
  {}

  /** Every order of the same targets gives the same shards. */
  lemma TargetShardsDeterministic(a: seq<string>, b: seq<string>, total: nat, w: Weights)
    requires 0 < total && multiset(a) == multiset(b)
    ensures TargetShards(a, total, w) == TargetShards(b, total, w)
  {
    SameMembers(a, b);
    LptDeterministic(a, b, total, w);
  }

  /** The refinement keeps LPT's distance from every other partition, and its own LPT start. */
  lemma TargetShardsWithinFourThirds(targets: seq<string>, total: nat, w: Weights,
                                     other: seq<seq<string>>, largest: real, k: nat)
    requires Positive(w) && k < total == |other| && Covers(other, targets)
    requires forall i :: 0 <= i < total ==> ShardLoad(other[i], w) <= largest
    ensures |TargetShards(targets, total, w)| == total
    ensures ShardLoad(TargetShards(targets, total, w)[k], w) <= MaxLoad(LptShards(targets, total, w), w)
    ensures WithinFourThirds(total, ShardLoad(TargetShards(targets, total, w)[k], w), largest)
  {
    var lpt := LptShards(targets, total, w);
    var final := TargetShards(targets, total, w);
    RunKeeps(lpt, w, |Content(lpt)|);
    MaxAtLeast(Loads(final, w), k);
    LptBoundSummed(targets, total, w, other, largest, Source(lpt, w));
    TimesMonotone(total, ShardLoad(final[k], w), MaxLoad(lpt, w));
    FourThirdsForm(total, ShardLoad(final[k], w), largest);
  }

  /** No assignment of this partition exceeds the load. */
  ghost predicate Within(shards: seq<seq<string>>, w: Weights, largest: real) {
    forall i :: 0 <= i < |shards| ==> ShardLoad(shards[i], w) <= largest
  }

  /** Every shard is within 4/3 of the largest load of every exact partition into as many shards. */
  ghost predicate NearOptimal(shards: seq<seq<string>>, targets: seq<string>, w: Weights) {
    forall other, largest, k :: |other| == |shards| && Covers(other, targets) && Within(other, w, largest) && 0 <= k < |shards| ==>
      WithinFourThirds(|shards|, ShardLoad(shards[k], w), largest)
  }

  lemma TargetShardsNearOptimal(targets: seq<string>, total: nat, w: Weights)
    requires 0 < total && Positive(w)
    ensures NearOptimal(TargetShards(targets, total, w), targets, w)
  {
    var shards := TargetShards(targets, total, w);
    TargetShardsCover(targets, total, w);
    forall other, largest, k: nat | |other| == |shards| && Covers(other, targets) && Within(other, w, largest) && k < |shards|
      ensures WithinFourThirds(|shards|, ShardLoad(shards[k], w), largest)
    {
      TargetShardsWithinFourThirds(targets, total, w, other, largest, k);
    }
  }

  method CppTargetShards(targets: seq<string>, total: int, build: map<string, real>, test: map<string, real>)
    returns (r: Result<seq<seq<string>>, ShardError>)
    requires Catalog(build) && Catalog(test)
    ensures r == Err(InvalidTotal) <==> total <= 0
    ensures r == Err(DuplicateTargets) <==> total > 0 && !Distinct(targets)
    ensures r == Err(MissingWeights) <==> total > 0 && Distinct(targets) && exists t :: t in targets && (t !in build || t !in test)
    ensures r.Err? ==> !r.error.Unbalanced?
    ensures r.Ok? ==> r.value == TargetShards(targets, total, Cost(build, test))
    ensures r.Ok? ==> |r.value| == total && Covers(r.value, targets) && EachSorted(r.value)
    ensures r.Ok? ==> NearOptimal(r.value, targets, Cost(build, test))
  {
    if total <= 0 {
      return Err(InvalidTotal);
    }
    SizeOfDistinct(targets);
    if |targets| != |Members(targets)| {
      return Err(DuplicateTargets);
    }
    var missing := set t | t in targets && (t !in build || t !in test);
    if missing != {} {
      var t :| t in missing;
      return Err(MissingWeights);
    }
    forall t | t in targets
      ensures t in build && t in test
    {
      assert t !in missing;
    }
    var table := CostTable(targets, build, test);
    ghost var w := Cost(build, test);
    var packed := AssignShards(targets, total, table);
    TableWeights(targets, build, test);
    LptSameWeights(targets, total, Weigh(table), w);
    var shards := Refine(packed.value, Cost(build, test));
    TargetShardsCover(targets, total, w);
    CatalogCosts(build, test);
    TargetShardsNearOptimal(targets, total, w);
    KeptAll(targets);
    var verdict := VerifyPartition(targets, shards, []);
    assert verdict.Ok?;  // the check cannot trip here
    return Ok(shards);
  }
}
