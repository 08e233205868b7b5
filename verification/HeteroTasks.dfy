/** Cost-aware task schedule of the heterogeneous benchmark (benchmarks/adc757/heterogeneous_numerics.cpp). */
module HeteroTasks {
  import opened Markers
  import opened Order
  import opened Results
  import opened Sums
  import Greedy

  const TASKS_PER_RANK := 8
  const INT_MAX := 0x7fff_ffff

  datatype Route = Baseline | Candidate

  datatype Task = Task(id: nat, weight: nat, baselineOwner: nat, candidateOwner: int)

  /** t % ranks; RoundRobinIsRemainder gives the operator form. */
  function RoundRobin(t: nat, ranks: nat): nat
    requires 0 < ranks
  {
    if t < ranks then t else RoundRobin(t - ranks, ranks)
  }

  lemma {:induction false} RoundRobinIsRemainder(t: nat, ranks: nat)
    requires 0 < ranks
    ensures RoundRobin(t, ranks) == t % ranks < ranks
  {
    if t >= ranks {
      RoundRobinIsRemainder(t - ranks, ranks);
      RemainderShift(t - ranks, ranks);
    }
  }

  lemma RemainderShift(t: nat, ranks: nat)
    requires 0 < ranks
    ensures t % ranks == (t + ranks) % ranks < ranks
  {
    var q, r := t / ranks, t % ranks;
    Remainder(q + 1, r, ranks);
    NextMultiple(q, r, t, ranks);
  }

  lemma NextMultiple(q: nat, r: nat, t: nat, ranks: nat)
    requires t == q * ranks + r
    ensures t + ranks == (q + 1) * ranks + r
  {}

  lemma Remainder(q: nat, j: nat, ranks: nat)
    requires j < ranks
    ensures (q * ranks + j) % ranks == j
  {
    var x := q * ranks + j;
    var d, r := x / ranks, x % ranks;
    assert d * ranks + r == x;
    if d < q {
      ScaleUp(d + 1, q, ranks);
    } else if q < d {
      ScaleUp(q + 1, d, ranks);
    }
  }

  lemma ScaleUp(a: nat, b: nat, c: nat)
    requires a <= b
    ensures (a - 1) * c + c == a * c <= b * c
  {
    assert (b - a) * c >= 0;
  }

  function Weight(t: nat, ranks: nat): nat
    requires 0 < ranks
  {
    if RoundRobin(t, ranks) == 0 then 16 + t % 3 else 1 + t % 3
  }

  // ---- The schedule ----

  function Iota(n: nat): (r: seq<nat>)
    ensures |r| == n && forall i :: 0 <= i < n ==> r[i] == i
  {
    seq(n, i requires 0 <= i => i)
  }

  /** A stable sort by falling weight of increasing task numbers. */
  predicate HeavierFirst(ranks: nat, a: nat, b: nat)
    requires 0 < ranks
  {
    Weight(a, ranks) > Weight(b, ranks) || (Weight(a, ranks) == Weight(b, ranks) && a <= b)
  }

  function HeavierOrder(ranks: nat): (nat, nat) -> bool
    requires 0 < ranks
  {
    (a: nat, b: nat) => HeavierFirst(ranks, a, b)
  }

  function Schedule(ranks: nat): (order: seq<nat>)
    requires 0 < ranks
    ensures multiset(order) == multiset(Iota(TASKS_PER_RANK * ranks)) && |order| == TASKS_PER_RANK * ranks
    ensures Sorted(order, HeavierOrder(ranks))
  {
    assert TotalOrder(HeavierOrder(ranks));
    Sort(Iota(TASKS_PER_RANK * ranks), HeavierOrder(ranks))
  }

  function WeightsIn(order: seq<nat>, ranks: nat): (ws: seq<real>)
    requires 0 < ranks
    ensures |ws| == |order|
    ensures forall i :: 0 <= i < |order| ==> ws[i] == Weight(order[i], ranks) as real
  {
    seq(|order|, i requires 0 <= i < |order| => Weight(order[i], ranks) as real)
  }

  /** Greedy owners of the first n scheduled tasks. */
  function Owners(ranks: nat, n: nat): (owner: seq<nat>)
    requires 0 < ranks && n <= |Schedule(ranks)|
    ensures |owner| == n && Greedy.Assigns(owner, ranks)
  {
    Greedy.Pack(WeightsIn(Schedule(ranks), ranks), ranks, n)
  }

  lemma IotaDistinct(n: nat)
    ensures Distinct(Iota(n))
  {}

  lemma ScheduleIsPermutation(ranks: nat)
    requires 0 < ranks
    ensures Distinct(Schedule(ranks))
    ensures forall i :: 0 <= i < |Schedule(ranks)| ==> Schedule(ranks)[i] < TASKS_PER_RANK * ranks
    ensures forall t :: 0 <= t < TASKS_PER_RANK * ranks ==> t in Schedule(ranks)
  {
    var iota, order := Iota(TASKS_PER_RANK * ranks), Schedule(ranks);
    IotaDistinct(TASKS_PER_RANK * ranks);
    PermutationDistinct(iota, order);
    SameMembers(iota, order);
    forall i | 0 <= i < |order|
      ensures order[i] < |iota|
    {
      assert order[i] in order;
    }
    forall t | 0 <= t < |iota|
      ensures t in order
    {
      assert iota[t] in iota;
    }
  }

  /** Weights and round-robin owners as assigned before any scheduling. */
  ghost predicate Numbered(tasks: seq<Task>, ranks: nat)
    requires 0 < ranks
  {
    forall t :: 0 <= t < |tasks| ==>
      tasks[t].id == t && tasks[t].weight == Weight(t, ranks) && tasks[t].baselineOwner == RoundRobin(t, ranks)
  }

  /** The tasks as built, before and after n scheduling decisions. */
  ghost predicate Built(tasks: seq<Task>, ranks: nat, n: nat)
    requires 0 < ranks && n <= |Schedule(ranks)|
  {
    && |tasks| == TASKS_PER_RANK * ranks
    && Numbered(tasks, ranks)
    && forall i :: 0 <= i < n ==>
         Schedule(ranks)[i] < |tasks| && tasks[Schedule(ranks)[i]].candidateOwner == Owners(ranks, n)[i]
  }

  ghost predicate Scheduled(tasks: seq<Task>, ranks: nat)
    requires 0 < ranks
  {
    Built(tasks, ranks, |Schedule(ranks)|)
  }

  function AsReals(s: seq<int>): (r: seq<real>)
    ensures |r| == |s|
    ensures forall i :: 0 <= i < |s| ==> r[i] == s[i] as real
  {
    seq(|s|, i requires 0 <= i < |s| => s[i] as real)
  }

  method BaselineTasks(ranks: nat) returns (tasks: seq<Task>)
    requires 0 < ranks
    ensures Built(tasks, ranks, 0)
  {
    tasks := [];
    for task := 0 to TASKS_PER_RANK * ranks
      invariant |tasks| == task
      invariant Numbered(tasks, ranks)
    {
      RoundRobinIsRemainder(task, ranks);
      var baselineOwner := task % ranks;
      var weight := if baselineOwner == 0 then 16 + task % 3 else 1 + task % 3;
      tasks := tasks + [Task(task, weight, baselineOwner, -1)];
    }
  }

  /** The tasks and loads of make_tasks after i decisions. */
  ghost predicate Scheduling(tasks: seq<Task>, loads: seq<int>, order: seq<nat>, ranks: nat, i: nat)
    requires 0 < ranks
  {
    forall mark: int {:trigger Opened(mark)} :: Opened(mark) ==>
      order == Schedule(ranks) && i <= |order| && Built(tasks, ranks, i) && LoadsAre(loads, ranks, i)
  }

  function Reassigned(tasks: seq<Task>, t: nat, owner: nat): seq<Task>
    requires t < |tasks|
  {
    tasks[t := tasks[t].(candidateOwner := owner)]
  }

  function Charged(loads: seq<int>, owner: nat, weight: int): seq<int>
    requires owner < |loads|
  {
    loads[owner := loads[owner] + weight]
  }

  lemma SchedulingStart(tasks: seq<Task>, loads: seq<int>, ranks: nat)
    requires 0 < ranks && Built(tasks, ranks, 0)
    requires |loads| == ranks && forall k :: 0 <= k < ranks ==> loads[k] == 0
    ensures Scheduling(tasks, loads, Schedule(ranks), ranks, 0)
  {
    LoadsAtStart(ranks, loads);
  }

  lemma LoadsAtStart(ranks: nat, loads: seq<int>)
    requires 0 < ranks && |loads| == ranks && forall k :: 0 <= k < ranks ==> loads[k] == 0
    ensures LoadsAre(loads, ranks, 0)
  {}

  lemma SchedulingEnd(tasks: seq<Task>, loads: seq<int>, order: seq<nat>, ranks: nat)
    requires 0 < ranks && Scheduling(tasks, loads, order, ranks, |order|)
    ensures Scheduled(tasks, ranks)
  {
    assert Opened(0);
  }

  lemma SchedulingStep(tasks: seq<Task>, loads: seq<int>, order: seq<nat>, ranks: nat, i: nat)
    requires 0 < ranks && i < |order| && Scheduling(tasks, loads, order, ranks, i)
    ensures order[i] < |tasks| && |loads| == ranks
    ensures var owner := Greedy.Least(AsReals(loads));
            Scheduling(Reassigned(tasks, order[i], owner), Charged(loads, owner, tasks[order[i]].weight), order, ranks, i + 1)
  {
    assert Opened(0);
    var owner := Greedy.Least(AsReals(loads));
    LoadsStep(ranks, i, loads, owner);
    BuiltStep(tasks, ranks, i, owner);
    NumberedWeight(tasks, ranks, order[i]);
  }

  lemma NumberedWeight(tasks: seq<Task>, ranks: nat, t: nat)
    requires 0 < ranks && t < |tasks| && Numbered(tasks, ranks)
    ensures tasks[t].weight == Weight(t, ranks)
  {}

  method MakeTasks(ranks: nat) returns (tasks: seq<Task>)
    requires 0 < ranks
    ensures Scheduled(tasks, ranks)
    ensures forall others, largest, k: nat :: k < ranks && SameTasks(tasks, others, ranks) && Below(others, ranks, largest) ==>
              3 * ranks * OwnerLoad(tasks, Candidate, k, |tasks|) <= (4 * ranks - 1) * largest
  {
    tasks := BaselineTasks(ranks);
    var loads: seq<int> := seq(ranks, _ => 0);
    SchedulingStart(tasks, loads, ranks);
    tasks := AssignCandidates(tasks, loads, Schedule(ranks), ranks);
    forall others, largest, k: nat | k < ranks && SameTasks(tasks, others, ranks) && Below(others, ranks, largest)
      ensures 3 * ranks * OwnerLoad(tasks, Candidate, k, |tasks|) <= (4 * ranks - 1) * largest
    {
      CandidateWithinFourThirds(tasks, others, ranks, largest, k);
    }
  }

  /** The scheduling loop: each task of the order goes to the first least-loaded rank. */
  method AssignCandidates(built: seq<Task>, empty: seq<int>, order: seq<nat>, ranks: nat) returns (tasks: seq<Task>)
    requires 0 < ranks && Scheduling(built, empty, order, ranks, 0)
    ensures Scheduled(tasks, ranks)
  {
    tasks := built;
    var loads := empty;
    for i := 0 to |order|
      invariant Scheduling(tasks, loads, order, ranks, i)
    {
      SchedulingStep(tasks, loads, order, ranks, i);
      var owner := Greedy.Least(AsReals(loads));
      loads := Charged(loads, owner, tasks[order[i]].weight);
      tasks := Reassigned(tasks, order[i], owner);
    }
    SchedulingEnd(tasks, loads, order, ranks);
  }

  /** The integer loads of the loop, after i decisions. */
  ghost predicate LoadsAre(loads: seq<int>, ranks: nat, i: nat)
    requires 0 < ranks && i <= |Schedule(ranks)|
  {
    && |loads| == ranks
    && AsReals(loads) == Greedy.LoadsOf(WeightsIn(Schedule(ranks), ranks), Owners(ranks, i), ranks, i)
  }

  lemma BuiltStep(tasks: seq<Task>, ranks: nat, i: nat, owner: nat)
    requires 0 < ranks && i < |Schedule(ranks)| && Built(tasks, ranks, i)
    requires Owners(ranks, i + 1) == Owners(ranks, i) + [owner]
    ensures Schedule(ranks)[i] < |tasks|
    ensures Built(Reassigned(tasks, Schedule(ranks)[i], owner), ranks, i + 1)
  {
    var order := Schedule(ranks);
    ScheduleIsPermutation(ranks);
    var next, after := Reassigned(tasks, order[i], owner), i + 1;
    assert Numbered(next, ranks);
    forall j | 0 <= j < after
      ensures order[j] < |next| && next[order[j]].candidateOwner == Owners(ranks, after)[j]
    {
      assert j < i ==> order[j] != order[i] && Owners(ranks, after)[j] == Owners(ranks, i)[j];
    }
  }

  lemma LoadsStep(ranks: nat, i: nat, loads: seq<int>, owner: nat)
    requires 0 < ranks && i < |Schedule(ranks)| && LoadsAre(loads, ranks, i)
    requires owner == Greedy.Least(AsReals(loads))
    ensures Owners(ranks, i + 1) == Owners(ranks, i) + [owner]
    ensures LoadsAre(Charged(loads, owner, Weight(Schedule(ranks)[i], ranks)), ranks, i + 1)
  {
    var ws := WeightsIn(Schedule(ranks), ranks);
    var before, after := Owners(ranks, i), Owners(ranks, i + 1);
    var next := AsReals(Charged(loads, owner, Weight(Schedule(ranks)[i], ranks)));
    assert owner == Greedy.Target(ws, ranks, i);
    forall k: nat | k < ranks
      ensures next[k] == Greedy.Load(ws, after, k, i + 1)
    {
      Greedy.PackStep(ws, ranks, i, k);
      assert AsReals(loads)[k] == Greedy.Load(ws, before, k, i);
    }
  }

  // ---- Loads by owner ----

  function OwnerOf(task: Task, route: Route): int {
    if route == Baseline then task.baselineOwner else task.candidateOwner
  }

  function OwnerLoad(tasks: seq<Task>, route: Route, k: nat, n: nat): nat
    requires n <= |tasks|
  {
    if n == 0 then 0
    else OwnerLoad(tasks, route, k, n - 1) + if OwnerOf(tasks[n - 1], route) == k then tasks[n - 1].weight else 0
  }

  function LoadsUpTo(tasks: seq<Task>, route: Route, ranks: nat, n: nat): (loads: seq<int>)
    requires n <= |tasks|
    ensures |loads| == ranks
    ensures forall k :: 0 <= k < ranks ==> loads[k] == OwnerLoad(tasks, route, k, n)
  {
    seq(ranks, k requires 0 <= k => OwnerLoad(tasks, route, k, n))
  }

  function LoadsBy(tasks: seq<Task>, route: Route, ranks: nat): seq<int> {
    LoadsUpTo(tasks, route, ranks, |tasks|)
  }

  method OwnerLoads(tasks: seq<Task>, ranks: nat, route: Route) returns (loads: seq<int>)
    requires forall t :: 0 <= t < |tasks| ==> 0 <= OwnerOf(tasks[t], route) < ranks
    ensures loads == LoadsBy(tasks, route, ranks)
  {
    loads := seq(ranks, _ => 0);
    for n := 0 to |tasks|
      invariant |loads| == ranks
      invariant forall k :: 0 <= k < ranks ==> loads[k] == OwnerLoad(tasks, route, k, n)
    {
      var owner := OwnerOf(tasks[n], route);
      loads := loads[owner := loads[owner] + tasks[n].weight];
    }
  }

  /** Every scheduled task has both owners inside the communicator. */
  lemma OwnersInRange(tasks: seq<Task>, ranks: nat, route: Route)
    requires 0 < ranks && Scheduled(tasks, ranks)
    ensures forall t :: 0 <= t < |tasks| ==> 0 <= OwnerOf(tasks[t], route) < ranks
  {
    forall t | 0 <= t < |tasks|
      ensures 0 <= OwnerOf(tasks[t], route) < ranks
    {
      if route == Candidate {
        CandidateInRange(tasks, ranks, t);
      } else {
        RoundRobinIsRemainder(t, ranks);
      }
    }
  }

  lemma CandidateInRange(tasks: seq<Task>, ranks: nat, t: nat)
    requires 0 < ranks && Scheduled(tasks, ranks) && t < |tasks|
    ensures 0 <= tasks[t].candidateOwner < ranks
  {
    ScheduleIsPermutation(ranks);
    var order := Schedule(ranks);
    assert t in order;
    var i :| 0 <= i < |order| && order[i] == t;
    assert Owners(ranks, |order|)[i] < ranks;
  }

  // ---- From the schedule to the task list ----

  /** What task t adds to the load of owner k. */
  function Share(tasks: seq<Task>, route: Route, k: nat): nat -> real {
    (t: nat) => if t < |tasks| && OwnerOf(tasks[t], route) == k then tasks[t].weight as real else 0.0
  }

  lemma {:induction false} IotaSum(tasks: seq<Task>, route: Route, k: nat, n: nat)
    requires n <= |tasks|
    ensures SumOf(Iota(n), Share(tasks, route, k)) == OwnerLoad(tasks, route, k, n) as real
  {
    if n == 0 {
      assert Iota(0) == [];
    } else {
      IotaSum(tasks, route, k, n - 1);
      assert Iota(n) == Iota(n - 1) + [n - 1];
      SumAppend<nat>(Iota(n - 1), [n - 1], Share(tasks, route, k));
      SumSingleton<nat>(n - 1, Share(tasks, route, k));
    }
  }

  lemma {:induction false} GreedySum(order: seq<nat>, ws: seq<real>, owner: seq<nat>, k: nat, n: nat, f: nat -> real)
    requires n <= |order| && n <= |ws| && n <= |owner|
    requires forall i :: 0 <= i < n ==> f(order[i]) == if owner[i] == k then ws[i] else 0.0
    ensures Greedy.Load(ws, owner, k, n) == SumOf(order[..n], f)
  {
    if n > 0 {
      GreedySum(order, ws, owner, k, n - 1, f);
      assert order[..n] == order[..n - 1] + [order[n - 1]];
      SumAppend(order[..n - 1], [order[n - 1]], f);
      SumSingleton(order[n - 1], f);
    }
  }

  /** The load of a candidate owner is the load the greedy loop gave it. */
  lemma CandidateLoadIsGreedy(tasks: seq<Task>, ranks: nat, k: nat)
    requires 0 < ranks && Scheduled(tasks, ranks)
    ensures var ws := WeightsIn(Schedule(ranks), ranks);
            Greedy.Load(ws, Owners(ranks, |ws|), k, |ws|) == OwnerLoad(tasks, Candidate, k, |tasks|) as real
  {
    var order := Schedule(ranks);
    var ws := WeightsIn(order, ranks);
    ScheduleIsPermutation(ranks);
    GreedySum(order, ws, Owners(ranks, |ws|), k, |ws|, Share(tasks, Candidate, k));
    assert order[..|ws|] == order;
    SumPermutation(order, Iota(|tasks|), Share(tasks, Candidate, k));
    IotaSum(tasks, Candidate, k, |tasks|);
  }

  // ---- The order of the schedule, and its distance from every other one ----

  /** In the schedule a heavier task stands before a lighter one, and of equally heavy ones the lower number first. */
  lemma ScheduleOrder(tasks: seq<Task>, ranks: nat, i: nat, j: nat)
    requires 0 < ranks && Numbered(tasks, ranks) && |tasks| == TASKS_PER_RANK * ranks
    requires i < |Schedule(ranks)| && j < |Schedule(ranks)|
    ensures var a, b := Schedule(ranks)[i], Schedule(ranks)[j];
            && a < |tasks| && b < |tasks|
            && (i < j <==> tasks[a].weight > tasks[b].weight || (tasks[a].weight == tasks[b].weight && a < b))
  {
    ScheduleIsPermutation(ranks);
    var order := Schedule(ranks);
    NumberedWeight(tasks, ranks, order[i]);
    NumberedWeight(tasks, ranks, order[j]);
    if i < j {
      assert HeavierOrder(ranks)(order[i], order[j]);
    } else if j < i {
      assert HeavierOrder(ranks)(order[j], order[i]);
    }
  }

  /** The same tasks with any candidate owners. */
  ghost predicate SameTasks(tasks: seq<Task>, others: seq<Task>, ranks: nat) {
    && |others| == |tasks|
    && forall t :: 0 <= t < |tasks| ==> others[t].weight == tasks[t].weight && 0 <= others[t].candidateOwner < ranks
  }

  /** No rank's candidate load exceeds largest. */
  ghost predicate Below(tasks: seq<Task>, ranks: nat, largest: int) {
    forall r: nat :: r < ranks ==> OwnerLoad(tasks, Candidate, r, |tasks|) <= largest
  }

  /** Candidate owners of the others in scheduling order. */
  function OwnersOf(others: seq<Task>, order: seq<nat>): (owner: seq<nat>)
    requires forall i :: 0 <= i < |order| ==> order[i] < |others| && 0 <= others[order[i]].candidateOwner
    ensures |owner| == |order| && forall i :: 0 <= i < |order| ==> owner[i] == others[order[i]].candidateOwner
  {
    seq(|order|, i requires 0 <= i < |order| => others[order[i]].candidateOwner)
  }

  lemma OtherLoad(tasks: seq<Task>, others: seq<Task>, ranks: nat, k: nat)
    requires 0 < ranks && Numbered(tasks, ranks) && |tasks| == TASKS_PER_RANK * ranks && SameTasks(tasks, others, ranks)
    ensures forall i :: 0 <= i < |Schedule(ranks)| ==> Schedule(ranks)[i] < |others|
    ensures var order := Schedule(ranks);
            Greedy.Load(WeightsIn(order, ranks), OwnersOf(others, order), k, |order|)
            == OwnerLoad(others, Candidate, k, |others|) as real
  {
    var order := Schedule(ranks);
    ScheduleIsPermutation(ranks);
    GreedySum(order, WeightsIn(order, ranks), OwnersOf(others, order), k, |order|, Share(others, Candidate, k));
    assert order[..|order|] == order;
    SumPermutation(order, Iota(|others|), Share(others, Candidate, k));
    IotaSum(others, Candidate, k, |others|);
  }

  lemma ScheduleFalls(ranks: nat)
    requires 0 < ranks
    ensures Greedy.NonNegative(WeightsIn(Schedule(ranks), ranks)) && Greedy.Descending(WeightsIn(Schedule(ranks), ranks))
  {
    var order := Schedule(ranks);
    forall i, j | 0 <= i < j < |order|
      ensures Weight(order[j], ranks) <= Weight(order[i], ranks)
    {
      assert HeavierOrder(ranks)(order[i], order[j]);
    }
  }

  /** No rank's candidate load exceeds (4R - 1) / 3R of the largest load of any other assignment of the tasks. */
  lemma CandidateWithinFourThirds(tasks: seq<Task>, others: seq<Task>, ranks: nat, largest: int, k: nat)
    requires k < ranks && Scheduled(tasks, ranks) && SameTasks(tasks, others, ranks)
    requires Below(others, ranks, largest)
    ensures 3 * ranks * OwnerLoad(tasks, Candidate, k, |tasks|) <= (4 * ranks - 1) * largest
  {
    var order := Schedule(ranks);
    var ws := WeightsIn(order, ranks);
    ScheduleFalls(ranks);
    forall r: nat | r < ranks
      ensures (forall i :: 0 <= i < |order| ==> order[i] < |others|)
              && Greedy.Load(ws, OwnersOf(others, order), r, |order|) <= largest as real
    {
      OtherLoad(tasks, others, ranks, r);
    }
    Greedy.LongestFirstBound(ws, OwnersOf(others, order), ranks, |order|, largest as real, k);
    CandidateLoadIsGreedy(tasks, ranks, k);
    FourThirdsOfInts(ranks, OwnerLoad(tasks, Candidate, k, |tasks|), largest);
  }

  lemma FourThirdsOfInts(ranks: nat, load: int, largest: int)
    requires 3.0 * Times(ranks, load as real) <= 4.0 * Times(ranks, largest as real) - largest as real
    ensures 3 * ranks * load <= (4 * ranks - 1) * largest
  {
    TimesIsProduct(ranks, load as real);
    TimesIsProduct(ranks, largest as real);
    assert (ranks * load) as real == ranks as real * load as real;
    assert (ranks * largest) as real == ranks as real * largest as real;
    assert 3 * (ranks * load) <= 4 * (ranks * largest) - largest;
    assert 3 * ranks * load == 3 * (ranks * load) && (4 * ranks - 1) * largest == 4 * (ranks * largest) - largest;
  }

  // ---- Counting tasks by baseline owner ----

  function Count(n: nat, ranks: nat, k: nat): nat
    requires 0 < ranks
  {
    if n == 0 then 0 else Count(n - 1, ranks, k) + if RoundRobin(n - 1, ranks) == k then 1 else 0
  }

  lemma {:induction false} RoundRobinOffset(q: nat, j: nat, ranks: nat)
    requires j < ranks
    ensures RoundRobin(q * ranks + j, ranks) == j
  {
    if q > 0 {
      RoundRobinOffset(q - 1, j, ranks);
      assert q * ranks + j - ranks == (q - 1) * ranks + j;
      assert 0 <= (q - 1) * ranks;
    }
  }

  /** A block of q full rounds and j more tasks meets owner k once a round. */
  lemma {:induction false} CountBlocks(q: nat, j: nat, ranks: nat, k: nat)
    requires j <= ranks && k < ranks
    ensures Count(q * ranks + j, ranks, k) == q + if k < j then 1 else 0
    decreases q, j
  {
    if j > 0 {
      CountBlocks(q, j - 1, ranks, k);
      RoundRobinOffset(q, j - 1, ranks);
      CountStep(q * ranks + j, ranks, k);
    } else if q > 0 {
      CountBlocks(q - 1, ranks, ranks, k);
      assert (q - 1) * ranks + ranks == q * ranks;
    }
  }

  lemma CountStep(n: nat, ranks: nat, k: nat)
    requires 0 < n && 0 < ranks
    ensures Count(n, ranks, k) == Count(n - 1, ranks, k) + if RoundRobin(n - 1, ranks) == k then 1 else 0
  {}

  lemma EightEach(ranks: nat, k: nat)
    requires k < ranks
    ensures Count(TASKS_PER_RANK * ranks, ranks, k) == TASKS_PER_RANK
  {
    CountBlocks(TASKS_PER_RANK, 0, ranks, k);
  }

  lemma {:induction false} BaselineLoadByCount(tasks: seq<Task>, ranks: nat, k: nat, n: nat)
    requires 0 < ranks && n <= |tasks| && Numbered(tasks, ranks)
    ensures k == 0 ==> 16 * Count(n, ranks, k) <= OwnerLoad(tasks, Baseline, k, n) <= 18 * Count(n, ranks, k)
    ensures k != 0 ==> Count(n, ranks, k) <= OwnerLoad(tasks, Baseline, k, n) <= 3 * Count(n, ranks, k)
  {
    if n > 0 {
      BaselineLoadByCount(tasks, ranks, k, n - 1);
    }
  }

  /** Round-robin ownership overloads rank 0 and leaves every rank at most 144. */
  lemma BaselineLoads(tasks: seq<Task>, ranks: nat, k: nat)
    requires k < ranks && Scheduled(tasks, ranks)
    ensures k == 0 ==> 128 <= OwnerLoad(tasks, Baseline, k, |tasks|) <= 144
    ensures k != 0 ==> 8 <= OwnerLoad(tasks, Baseline, k, |tasks|) <= 24
  {
    BaselineLoadByCount(tasks, ranks, k, |tasks|);
    EightEach(ranks, k);
  }

  // ---- The candidate loads ----

  function TotalWeight(tasks: seq<Task>, n: nat): nat
    requires n <= |tasks|
  {
    if n == 0 then 0 else TotalWeight(tasks, n - 1) + tasks[n - 1].weight
  }

  /** Exact total: two a task, fifteen more for each heavy one, and one less off a multiple of three. */
  lemma {:induction false} TotalByCount(tasks: seq<Task>, ranks: nat, n: nat)
    requires 0 < ranks && n <= |tasks| && Numbered(tasks, ranks)
    ensures TotalWeight(tasks, n) + Slack(n) == 2 * n + 15 * Count(n, ranks, 0)
  {
    if n > 0 {
      TotalByCount(tasks, ranks, n - 1);
      SlackStep(n);
      WeightOf(tasks, ranks, n - 1);
    }
  }

  function Slack(n: nat): nat {
    if n % 3 == 0 then 0 else 1
  }

  lemma SlackStep(n: nat)
    requires 0 < n
    ensures (n - 1) % 3 + Slack(n) == 1 + Slack(n - 1)
  {}

  lemma WeightOf(tasks: seq<Task>, ranks: nat, t: nat)
    requires 0 < ranks && Numbered(tasks, ranks) && t < |tasks|
    ensures tasks[t].weight == 1 + t % 3 + if RoundRobin(t, ranks) == 0 then 15 else 0
  {}

  function Whole(tasks: seq<Task>): nat -> real {
    (t: nat) => if t < |tasks| then tasks[t].weight as real else 0.0
  }

  lemma {:induction false} IotaTotal(tasks: seq<Task>, n: nat)
    requires n <= |tasks|
    ensures SumOf(Iota(n), Whole(tasks)) == TotalWeight(tasks, n) as real
  {
    if n == 0 {
      assert Iota(0) == [];
    } else {
      IotaTotal(tasks, n - 1);
      assert Iota(n) == Iota(n - 1) + [n - 1];
      SumAppend<nat>(Iota(n - 1), [n - 1], Whole(tasks));
      SumSingleton<nat>(n - 1, Whole(tasks));
    }
  }

  lemma {:induction false} GreedyTotal(order: seq<nat>, ws: seq<real>, n: nat, f: nat -> real)
    requires n <= |order| && n <= |ws|
    requires forall i :: 0 <= i < n ==> f(order[i]) == ws[i]
    ensures Greedy.Total(ws, n) == SumOf(order[..n], f)
  {
    if n > 0 {
      GreedyTotal(order, ws, n - 1, f);
      assert order[..n] == order[..n - 1] + [order[n - 1]];
      SumAppend(order[..n - 1], [order[n - 1]], f);
      SumSingleton(order[n - 1], f);
    }
  }

  lemma ScheduleTotal(tasks: seq<Task>, ranks: nat)
    requires 0 < ranks && Scheduled(tasks, ranks)
    ensures Greedy.Total(WeightsIn(Schedule(ranks), ranks), |tasks|) <= (120 + 16 * ranks) as real
  {
    var order := Schedule(ranks);
    ScheduleIsPermutation(ranks);
    GreedyTotal(order, WeightsIn(order, ranks), |tasks|, Whole(tasks));
    assert order[..|tasks|] == order;
    SumPermutation(order, Iota(|tasks|), Whole(tasks));
    IotaTotal(tasks, |tasks|);
    TotalByCount(tasks, ranks, |tasks|);
    EightEach(ranks, 0);
  }

  /** Every rank's candidate load is at most 34 + 102 / R. */
  lemma CandidateLoadBound(tasks: seq<Task>, ranks: nat, k: nat)
    requires k < ranks && Scheduled(tasks, ranks)
    ensures ranks * OwnerLoad(tasks, Candidate, k, |tasks|) <= 34 * ranks + 102
  {
    var ws := WeightsIn(Schedule(ranks), ranks);
    var load := OwnerLoad(tasks, Candidate, k, |tasks|);
    CandidateLoadIsGreedy(tasks, ranks, k);
    assert forall i :: 0 <= i < |ws| ==> 0.0 <= ws[i] <= 18.0;
    Greedy.LoadNearMean(ws, ranks, |ws|, k, 18.0);
    ScheduleTotal(tasks, ranks);
    ProductBound(ranks, load);
  }

  lemma ProductBound(ranks: nat, load: nat)
    requires Times(ranks, load as real)
             <= (120 + 16 * ranks) as real + Times(ranks, 18.0) - 18.0
    ensures ranks * load <= 34 * ranks + 102
  {
    TimesIsProduct(ranks, load as real);
    TimesIsProduct(ranks, 18.0);
    assert (ranks * load) as real == ranks as real * load as real;
  }

  /** With at least two ranks every candidate load lies below rank 0's baseline load. */
  lemma CandidateBelowBaseline(tasks: seq<Task>, ranks: nat, k: nat)
    requires 2 <= ranks && k < ranks && Scheduled(tasks, ranks)
    ensures OwnerLoad(tasks, Candidate, k, |tasks|) <= 85 < 128 <= OwnerLoad(tasks, Baseline, 0, |tasks|)
  {
    CandidateLoadBound(tasks, ranks, k);
    BaselineLoads(tasks, ranks, 0);
    AtMostEightyFive(ranks, OwnerLoad(tasks, Candidate, k, |tasks|));
  }

  lemma AtMostEightyFive(ranks: nat, load: nat)
    requires 2 <= ranks && ranks * load <= 34 * ranks + 102
    ensures load <= 85
  {
    assert load >= 86 ==> ranks * load >= ranks * 86;
  }

  // ---- Migration happens ----

  predicate Moves(task: Task) {
    task.candidateOwner != task.baselineOwner
  }

  lemma {:induction false} UnmovedLoads(tasks: seq<Task>, k: nat, n: nat)
    requires n <= |tasks|
    requires forall t :: 0 <= t < n ==> !Moves(tasks[t])
    ensures OwnerLoad(tasks, Candidate, k, n) == OwnerLoad(tasks, Baseline, k, n)
  {
    if n > 0 { UnmovedLoads(tasks, k, n - 1); }
  }

  /** Some task migrates exactly when there is more than one rank. */
  lemma SomeTaskMovesIffParallel(tasks: seq<Task>, ranks: nat)
    requires 0 < ranks && Scheduled(tasks, ranks)
    ensures (exists t :: 0 <= t < |tasks| && Moves(tasks[t])) <==> 2 <= ranks
  {
    if ranks == 1 {
      OwnersInRange(tasks, ranks, Candidate);
      OwnersInRange(tasks, ranks, Baseline);
      forall t | 0 <= t < |tasks|
        ensures !Moves(tasks[t])
      {
        assert 0 <= OwnerOf(tasks[t], Candidate) < ranks && 0 <= OwnerOf(tasks[t], Baseline) < ranks;
      }
    } else {
      CandidateBelowBaseline(tasks, ranks, 0);
      if forall t :: 0 <= t < |tasks| ==> !Moves(tasks[t]) {
        UnmovedLoads(tasks, 0, |tasks|);
      }
    }
  }

  // ---- The imbalance ratio ----

  function SumInts(s: seq<int>, n: nat): int
    requires n <= |s|
  {
    if n == 0 then 0 else SumInts(s, n - 1) + s[n - 1]
  }

  function MaxInt(s: seq<int>): (r: int)
    requires s != []
    ensures r in s && forall i :: 0 <= i < |s| ==> s[i] <= r
  {
    var n := |s| - 1;
    if n == 0 then s[0]
    else
      var r := MaxInt(s[..n]);
      assert forall i :: 0 <= i < n ==> s[i] == s[..n][i];
      if r < s[n] then s[n] else r
  }

  function ImbalanceRatio(loads: seq<int>): real
    requires loads != [] && SumInts(loads, |loads|) != 0
  {
    var average := SumInts(loads, |loads|) as real / |loads| as real;
    MaxInt(loads) as real / average
  }

  lemma {:induction false} SumIntsStep(loads: seq<int>, owner: nat, x: int, n: nat)
    requires owner < |loads| && n <= |loads|
    ensures SumInts(loads[owner := loads[owner] + x], n) == SumInts(loads, n) + if owner < n then x else 0
  {
    if n > 0 { SumIntsStep(loads, owner, x, n - 1); }
  }

  lemma {:induction false} SumIntsZero(loads: seq<int>, n: nat)
    requires n <= |loads| && forall k :: 0 <= k < n ==> loads[k] == 0
    ensures SumInts(loads, n) == 0
  {
    if n > 0 { SumIntsZero(loads, n - 1); }
  }

  /** Neither route gains or loses weight. */
  lemma {:induction false} LoadsConserveWeight(tasks: seq<Task>, route: Route, ranks: nat, n: nat)
    requires n <= |tasks|
    requires forall t :: 0 <= t < |tasks| ==> 0 <= OwnerOf(tasks[t], route) < ranks
    ensures SumInts(LoadsUpTo(tasks, route, ranks, n), ranks) == TotalWeight(tasks, n)
  {
    if n == 0 {
      SumIntsZero(LoadsUpTo(tasks, route, ranks, 0), ranks);
    } else {
      var before := LoadsUpTo(tasks, route, ranks, n - 1);
      var owner := OwnerOf(tasks[n - 1], route);
      LoadsConserveWeight(tasks, route, ranks, n - 1);
      SumIntsStep(before, owner, tasks[n - 1].weight, ranks);
      assert LoadsUpTo(tasks, route, ranks, n) == before[owner := before[owner] + tasks[n - 1].weight];
    }
  }

  lemma RouteTotal(tasks: seq<Task>, route: Route, ranks: nat)
    requires 0 < ranks && Scheduled(tasks, ranks)
    ensures SumInts(LoadsBy(tasks, route, ranks), ranks) == TotalWeight(tasks, |tasks|)
    ensures 0 < TotalWeight(tasks, |tasks|)
  {
    OwnersInRange(tasks, ranks, route);
    LoadsConserveWeight(tasks, route, ranks, |tasks|);
    TotalByCount(tasks, ranks, |tasks|);
  }

  /** The cost-aware schedule always improves the measured imbalance. */
  lemma ImbalanceDrops(tasks: seq<Task>, ranks: nat)
    requires 2 <= ranks && Scheduled(tasks, ranks)
    ensures var baseline, candidate := LoadsBy(tasks, Baseline, ranks), LoadsBy(tasks, Candidate, ranks);
            && SumInts(baseline, ranks) == SumInts(candidate, ranks) > 0
            && ImbalanceRatio(candidate) < ImbalanceRatio(baseline)
  {
    var baseline, candidate := LoadsBy(tasks, Baseline, ranks), LoadsBy(tasks, Candidate, ranks);
    RouteTotal(tasks, Baseline, ranks);
    RouteTotal(tasks, Candidate, ranks);
    var k :| 0 <= k < ranks && candidate[k] == MaxInt(candidate);
    CandidateBelowBaseline(tasks, ranks, k);
    assert baseline[0] <= MaxInt(baseline);
    QuotientDrops(MaxInt(candidate), MaxInt(baseline), SumInts(baseline, ranks) as real, ranks as real);
  }

  /** Loads are at most n times their maximum together, and exactly that only if they are all equal. */
  lemma {:induction false} SumIntsAtMost(loads: seq<int>, n: nat, most: int)
    requires n <= |loads| && forall i :: 0 <= i < n ==> loads[i] <= most
    ensures SumInts(loads, n) <= n * most
    ensures SumInts(loads, n) == n * most <==> forall i :: 0 <= i < n ==> loads[i] == most
  {
    if n > 0 {
      SumIntsAtMost(loads, n - 1, most);
      assert n * most == (n - 1) * most + most;
    }
  }

  ghost predicate AllEqual(loads: seq<int>) {
    forall i, j :: 0 <= i < j < |loads| ==> loads[i] == loads[j]
  }

  lemma EqualToMost(loads: seq<int>, k: nat)
    requires k < |loads|
    ensures AllEqual(loads) <==> forall i :: 0 <= i < |loads| ==> loads[i] == loads[k]
  {
    if AllEqual(loads) {
      forall i | 0 <= i < |loads|
        ensures loads[i] == loads[k]
      {
        assert i < k ==> loads[i] == loads[k];
        assert k < i ==> loads[k] == loads[i];
      }
    }
  }

  /** ratio is what the largest load is to the mean: they agree when both are multiplied by the number of loads. */
  ghost predicate IsRatio(ratio: real, total: int, product: int) {
    ratio * total as real == product as real
  }

  /** The ratio is that of the largest load to the mean; it is at least 1, and 1 exactly for equal loads. */
  lemma ImbalanceExactly(loads: seq<int>)
    requires loads != [] && 0 < SumInts(loads, |loads|)
    ensures IsRatio(ImbalanceRatio(loads), SumInts(loads, |loads|), |loads| * MaxInt(loads))
    ensures 1.0 <= ImbalanceRatio(loads)
    ensures ImbalanceRatio(loads) == 1.0 <==> AllEqual(loads)
  {
    var product := FullOnlyIfEqual(loads);
    var total := SumInts(loads, |loads|);
    RatioOfInts(MaxInt(loads), total, |loads|, product);
    assert ImbalanceRatio(loads) == MaxInt(loads) as real / (total as real / |loads| as real);
  }

  lemma FullOnlyIfEqual(loads: seq<int>) returns (product: int)
    requires loads != []
    ensures product == |loads| * MaxInt(loads) && SumInts(loads, |loads|) <= product
    ensures SumInts(loads, |loads|) == product <==> AllEqual(loads)
  {
    var most := MaxInt(loads);
    product := |loads| * most;
    SumIntsAtMost(loads, |loads|, most);
    var k :| 0 <= k < |loads| && loads[k] == most;
    EqualToMost(loads, k);
  }

  lemma RatioOfInts(most: int, total: int, n: nat, product: int)
    requires 0 < n && product == n * most && 0 < total <= product
    ensures total as real / n as real != 0.0
    ensures var ratio := most as real / (total as real / n as real);
            IsRatio(ratio, total, product) && 1.0 <= ratio && (ratio == 1.0 <==> total == product)
  {
    ProductAsReal(n, most);
    RatioForm(most as real, total as real, n as real);
  }

  lemma ProductAsReal(n: nat, most: int)
    ensures (n * most) as real == n as real * most as real
  {}

  lemma RatioForm(most: real, total: real, n: real)
    requires 0.0 < total && 0.0 < n && total <= n * most
    ensures total / n != 0.0
    ensures var ratio := most / (total / n);
            ratio * total == n * most && 1.0 <= ratio && (ratio == 1.0 <==> total == n * most)
  {
    var average := total / n;
    assert average * n == total;
    assert 0.0 < average;
    var ratio := most / average;
    assert ratio * average == most;
    assert ratio * (average * n) == (ratio * average) * n;
    assert ratio * total == n * most;
    assert ratio < 1.0 ==> (1.0 - ratio) * total > 0.0;
    assert ratio == 1.0 ==> total == n * most;
    assert total == n * most ==> (ratio - 1.0) * total == 0.0;
  }

  lemma QuotientDrops(a: int, b: int, total: real, ranks: real)
    requires a < b && 0.0 < total && 0.0 < ranks
    ensures total / ranks != 0.0
    ensures a as real / (total / ranks) < b as real / (total / ranks)
  {
    var average := total / ranks;
    assert 0.0 < average;
    var x, y := a as real / average, b as real / average;
    assert x * average == a as real && y * average == b as real;
    assert y <= x ==> y * average <= x * average;
  }

  // ---- Kernel work ----

  datatype Overflow = KernelWork | PayloadCount | SendCount | NothingMigrated

  function CheckedKernelWork(weight: int, iterations: nat): Result<int, Overflow>
    requires 0 < iterations
  {
    if weight < 0 || weight > INT_MAX / iterations then Err(KernelWork) else Ok(weight * iterations)
  }

  /** The division check refuses exactly the products that do not fit. */
  lemma CheckedExactly(weight: int, iterations: nat)
    requires 0 < iterations
    ensures CheckedKernelWork(weight, iterations)
            == if 0 <= weight && weight * iterations <= 2147483647 then Ok(weight * iterations) else Err(KernelWork)
  {
    var q := INT_MAX / iterations;
    QuotientBounds(INT_MAX, iterations);
    if 0 <= weight <= q {
      ScaleUp(weight, q, iterations);
    } else if q < weight {
      ScaleUp(q + 1, weight, iterations);
    }
  }

  lemma QuotientBounds(x: nat, d: nat)
    requires 0 < d
    ensures (x / d) * d <= x < (x / d + 1) * d
  {}

  const MAX_ITERATIONS := 1_000_000

  /** Within the option caps no load of either route can trip the overflow check. */
  lemma KernelWorkFits(tasks: seq<Task>, ranks: nat, route: Route, k: nat, weight: nat, iterations: nat)
    requires 2 <= ranks && k < ranks && Scheduled(tasks, ranks)
    requires 0 < iterations <= 1_000_000 && weight <= OwnerLoad(tasks, route, k, |tasks|)
    ensures CheckedKernelWork(weight, iterations) == Ok(weight * iterations)
    ensures weight * iterations <= 2147483647
  {
    if route == Baseline {
      BaselineLoads(tasks, ranks, k);
    } else {
      CandidateBelowBaseline(tasks, ranks, k);
    }
    SmallProduct(weight, iterations);
  }

  lemma SmallProduct(weight: nat, iterations: nat)
    requires weight <= 144 && 0 < iterations <= MAX_ITERATIONS
    ensures weight <= INT_MAX / iterations && weight * iterations <= INT_MAX
  {
    assert weight * iterations <= 144 * iterations;
    var q := INT_MAX / iterations;
    assert INT_MAX < (q + 1) * iterations;
    assert q < weight ==> (q + 1) * iterations <= weight * iterations;
  }

  // ---- The two lanes of one rank ----

  predicate GreaterEqual(a: int, b: int) { b <= a }

  /** Weights a rank owns under the candidate route, over the first n tasks. */
  function LocalWeights(tasks: seq<Task>, rank: nat, n: nat): (weights: seq<int>)
    requires n <= |tasks|
    ensures forall w :: w in weights ==> 0 <= w
  {
    if n == 0 then []
    else LocalWeights(tasks, rank, n - 1) + if tasks[n - 1].candidateOwner == rank then [tasks[n - 1].weight] else []
  }

  function SortedWeights(weights: seq<int>): (r: seq<int>)
    ensures multiset(r) == multiset(weights) && Sorted(r, GreaterEqual)
  {
    assert TotalOrder(GreaterEqual);
    Sort(weights, GreaterEqual)
  }

  function IntValue(x: int): real { x as real }

  lemma {:induction false} LocalWeightsSum(tasks: seq<Task>, rank: nat, n: nat)
    requires n <= |tasks|
    ensures SumOf(LocalWeights(tasks, rank, n), IntValue) == OwnerLoad(tasks, Candidate, rank, n) as real
  {
    if n > 0 {
      LocalWeightsSum(tasks, rank, n - 1);
      var last: seq<int> := if tasks[n - 1].candidateOwner == rank then [tasks[n - 1].weight] else [];
      SumAppend(LocalWeights(tasks, rank, n - 1), last, IntValue);
      SumSingleton<int>(tasks[n - 1].weight, IntValue);
    }
  }

  lemma {:induction false} TotalIsSum(weights: seq<int>, n: nat)
    requires n <= |weights|
    ensures Greedy.Total(AsReals(weights), n) == SumOf(weights[..n], IntValue)
  {
    if n > 0 {
      TotalIsSum(weights, n - 1);
      assert weights[..n] == weights[..n - 1] + [weights[n - 1]];
      SumAppend(weights[..n - 1], [weights[n - 1]], IntValue);
      SumSingleton(weights[n - 1], IntValue);
    }
  }

  /** The two lane loads are the greedy packing of the rank's weights, heaviest first. */
  ghost predicate Lanes(weights: seq<int>, n: nat, first: int, second: int)
    requires n <= |weights|
  {
    var ws := AsReals(weights);
    && first as real == Greedy.Load(ws, Greedy.Pack(ws, 2, n), 0, n)
    && second as real == Greedy.Load(ws, Greedy.Pack(ws, 2, n), 1, n)
  }

  lemma LaneStep(weights: seq<int>, n: nat, first: int, second: int)
    requires n < |weights| && Lanes(weights, n, first, second)
    ensures if first <= second then Lanes(weights, n + 1, first + weights[n], second)
            else Lanes(weights, n + 1, first, second + weights[n])
  {
    var ws := AsReals(weights);
    Greedy.PackStep(ws, 2, n, 0);
    Greedy.PackStep(ws, 2, n, 1);
    var loads := Greedy.LoadsOf(ws, Greedy.Pack(ws, 2, n), 2, n);
    assert loads[0] == first as real && loads[1] == second as real;
    assert Greedy.Target(ws, 2, n) == Greedy.Least(loads);
  }

  method SplitCandidateLoad(tasks: seq<Task>, rank: nat) returns (first: int, second: int)
    ensures var weights := SortedWeights(LocalWeights(tasks, rank, |tasks|));
            Lanes(weights, |weights|, first, second)
    ensures first + second == OwnerLoad(tasks, Candidate, rank, |tasks|)
  {
    var weights := SortedWeights(LocalWeights(tasks, rank, |tasks|));
    first, second := 0, 0;
    for n := 0 to |weights|
      invariant Lanes(weights, n, first, second)
    {
      LaneStep(weights, n, first, second);
      if first <= second {
        first := first + weights[n];
      } else {
        second := second + weights[n];
      }
    }
    LanesConserveWeight(tasks, rank, first, second);
  }

  lemma LanesConserveWeight(tasks: seq<Task>, rank: nat, first: int, second: int)
    requires var weights := SortedWeights(LocalWeights(tasks, rank, |tasks|));
             Lanes(weights, |weights|, first, second)
    ensures first + second == OwnerLoad(tasks, Candidate, rank, |tasks|)
  {
    var local := LocalWeights(tasks, rank, |tasks|);
    var weights := SortedWeights(local);
    var ws := AsReals(weights);
    var owner := Greedy.Pack(ws, 2, |ws|);
    Greedy.LoadsConserveWeight(ws, owner, 2, |ws|);
    assert Greedy.SumLoads(ws, owner, 2, |ws|) == Greedy.SumLoads(ws, owner, 1, |ws|) + Greedy.Load(ws, owner, 1, |ws|);
    assert Greedy.SumLoads(ws, owner, 1, |ws|) == Greedy.SumLoads(ws, owner, 0, |ws|) + Greedy.Load(ws, owner, 0, |ws|);
    TotalIsSum(weights, |weights|);
    assert weights[..|weights|] == weights;
    SumPermutation(weights, local, IntValue);
    LocalWeightsSum(tasks, rank, |tasks|);
  }

  /** Neither lane exceeds 7/6 of the larger lane of any other split of the rank's tasks. */
  lemma LanesWithinSevenSixths(tasks: seq<Task>, rank: nat, first: int, second: int, split: seq<nat>, largest: real)
    requires var weights := SortedWeights(LocalWeights(tasks, rank, |tasks|));
             && Lanes(weights, |weights|, first, second)
             && |split| == |weights| && Greedy.Assigns(split, 2)
             && Greedy.Fits(AsReals(weights), split, 2, |weights|, largest)
    ensures 6.0 * first as real <= 7.0 * largest && 6.0 * second as real <= 7.0 * largest
  {
    var local := LocalWeights(tasks, rank, |tasks|);
    var weights := SortedWeights(local);
    var ws := AsReals(weights);
    SameMembers(weights, local);
    forall i | 0 <= i < |ws|
      ensures 0.0 <= ws[i]
    {
      assert weights[i] in weights;
    }
    assert forall i, j :: 0 <= i < j < |weights| ==> GreaterEqual(weights[i], weights[j]);
    Greedy.LongestFirstBound(ws, split, 2, |ws|, largest, 0);
    Greedy.LongestFirstBound(ws, split, 2, |ws|, largest, 1);
    TwoTimes(first as real);
    TwoTimes(second as real);
    TwoTimes(largest);
  }

  lemma TwoTimes(x: real)
    ensures Times(2, x) == 2.0 * x
  {
    assert Times(2, x) == Times(1, x) + x;
    assert Times(1, x) == Times(0, x) + x;
  }
}
