/** Transitive test consumers of the runtime libraries (scripts/ci_select_tests.py). */
module RuntimeConsumers {
  import opened Markers
  import opened Reach

  /** c consumes b: some library that reaches b through dependencies has c as a direct consumer. */
  ghost predicate Consumes(dependencies: Graph, direct: Graph, b: Node, c: Node) {
    exists a :: a in dependencies && Reaches(dependencies, a, b) && c in Next(direct, a)
  }

  /** Every library of the manifest and no other dependency name. */
  ghost predicate Resolved(dependencies: Graph) {
    forall a, b :: a in dependencies && b in dependencies[a] ==> b in dependencies
  }

  ghost predicate Sound(dependencies: Graph, direct: Graph, consumers: Graph) {
    && consumers.Keys == dependencies.Keys
    && forall b, c :: b in consumers && c in consumers[b] ==> Consumes(dependencies, direct, b, c)
  }

  ghost predicate Holds(direct: Graph, consumers: Graph) {
    forall b :: b in consumers ==> Next(direct, b) <= consumers[b]
  }

  function Pairs(consumers: Graph): set<(Node, Node)> {
    set b, c | b in consumers && c in consumers[b] :: (b, c)
  }

  function AllPairs(dependencies: Graph, direct: Graph): set<(Node, Node)> {
    set b, a, c | b in dependencies && a in direct && c in direct[a] :: (b, c)
  }

  lemma ConsumesStep(dependencies: Graph, direct: Graph, lib: Node, dep: Node, c: Node)
    requires Consumes(dependencies, direct, lib, c) && dep in Next(dependencies, lib)
    ensures Consumes(dependencies, direct, dep, c)
  {
    var a :| a in dependencies && Reaches(dependencies, a, lib) && c in Next(direct, a);
    ReachesStep(dependencies, a, lib, dep);
  }

  lemma ConsumesDirect(dependencies: Graph, direct: Graph, b: Node, c: Node)
    requires b in dependencies && c in Next(direct, b)
    ensures Consumes(dependencies, direct, b, c)
  {
    ReachesItself(dependencies, b);
  }

  lemma PairsWithin(dependencies: Graph, direct: Graph, consumers: Graph)
    requires Sound(dependencies, direct, consumers)
    ensures Pairs(consumers) <= AllPairs(dependencies, direct)
  {
    forall b, c | b in consumers && c in consumers[b]
      ensures (b, c) in AllPairs(dependencies, direct)
    {
      var a :| a in dependencies && Reaches(dependencies, a, b) && c in Next(direct, a);
      assert a in direct && c in direct[a];
    }
  }

  /** Every library passes its consumers on to each of its dependencies. */
  ghost predicate Settled(dependencies: Graph, consumers: Graph, libs: set<Node>)
    requires Resolved(dependencies) && consumers.Keys == dependencies.Keys && libs <= dependencies.Keys
  {
    forall lib, dep :: lib in libs && dep in dependencies[lib] ==> consumers[lib] <= consumers[dep]
  }

  lemma {:induction false} SettledAlong(dependencies: Graph, direct: Graph, consumers: Graph, p: seq<Node>, c: Node)
    requires Resolved(dependencies) && consumers.Keys == dependencies.Keys
    requires Settled(dependencies, consumers, dependencies.Keys)
    requires Path(dependencies, p) && p[0] in dependencies && c in consumers[p[0]]
    ensures p[|p| - 1] in consumers && c in consumers[p[|p| - 1]]
    decreases |p|
  {
    var n := |p| - 1;
    if n > 0 {
      var q := p[..n];
      SettledAlong(dependencies, direct, consumers, q, c);
      assert p[n - 1 + 1] in Next(dependencies, p[n - 1]);
    }
  }

  /** A sound, settled table that holds the direct consumers is exact. */
  lemma SettledIsExact(dependencies: Graph, direct: Graph, consumers: Graph)
    requires Resolved(dependencies) && Sound(dependencies, direct, consumers) && Holds(direct, consumers)
    requires Settled(dependencies, consumers, dependencies.Keys)
    ensures forall b, c :: b in dependencies ==> (c in consumers[b] <==> Consumes(dependencies, direct, b, c))
  {
    forall b, c | b in dependencies && Consumes(dependencies, direct, b, c)
      ensures c in consumers[b]
    {
      var a :| a in dependencies && Reaches(dependencies, a, b) && c in Next(direct, a);
      var p :| PathBetween(dependencies, p, a, b);
      SettledAlong(dependencies, direct, consumers, p, c);
    }
  }

  /** after has grown from before. */
  ghost predicate Extends(before: Graph, after: Graph) {
    before.Keys == after.Keys && forall b :: b in before ==> before[b] <= after[b]
  }

  lemma ExtendsThrough(a: Graph, b: Graph, c: Graph)
    requires Extends(a, b) && Extends(b, c)
    ensures Extends(a, c)
    ensures a == c <==> a == b && b == c
  {
    if a == c {
      forall k | k in a
        ensures a[k] == b[k]
      {
        assert a[k] <= b[k] <= c[k];
      }
    }
  }

  lemma GrowthShows(before: Graph, after: Graph)
    requires Extends(before, after) && before != after
    ensures Pairs(before) < Pairs(after)
  {
    var b :| b in before && before[b] != after[b];
    var c :| c in after[b] && c !in before[b];
    assert (b, c) in Pairs(after) && (b, c) !in Pairs(before);
  }

  /** consumers after merging lib into the dependencies done so far. */
  ghost predicate Passing(before: Graph, lib: Node, done: set<Node>, consumers: Graph, grew: bool) {
    && lib in before && Extends(before, consumers)
    && (grew <==> consumers != before)
    && (!grew ==> forall dep :: dep in done && dep in before ==> before[lib] <= before[dep])
  }

  lemma MergeGrows(consumers: Graph, lib: Node, dep: Node)
    requires lib in consumers && dep in consumers
    ensures var merged := consumers[dep := consumers[dep] + consumers[lib]];
            && Extends(consumers, merged)
            && (|merged[dep]| == |consumers[dep]| <==> merged == consumers)
            && (merged == consumers <==> consumers[lib] <= consumers[dep])
  {
    var merged := consumers[dep := consumers[dep] + consumers[lib]];
    assert merged[dep] == consumers[dep] + (consumers[lib] - consumers[dep]);
    if |merged[dep]| == |consumers[dep]| {
      assert consumers[lib] - consumers[dep] == {};
    }
  }

  lemma PassStep(before: Graph, lib: Node, done: set<Node>, consumers: Graph, grew: bool, dep: Node)
    requires dep in before && Passing(before, lib, done, consumers, grew)
    ensures var merged := consumers[dep := consumers[dep] + consumers[lib]];
            Passing(before, lib, done + {dep}, merged, grew || |merged[dep]| != |consumers[dep]|)
  {
    var merged := consumers[dep := consumers[dep] + consumers[lib]];
    MergeGrows(consumers, lib, dep);
    ExtendsThrough(before, consumers, merged);
  }

  lemma MergeIsSound(dependencies: Graph, direct: Graph, consumers: Graph, lib: Node, dep: Node)
    requires Resolved(dependencies) && Sound(dependencies, direct, consumers) && Holds(direct, consumers)
    requires lib in dependencies && dep in dependencies[lib]
    ensures dep in consumers && lib in consumers
    ensures var merged := consumers[dep := consumers[dep] + consumers[lib]];
            Sound(dependencies, direct, merged) && Holds(direct, merged)
  {
    forall c | c in consumers[lib]
      ensures Consumes(dependencies, direct, dep, c)
    {
      ConsumesStep(dependencies, direct, lib, dep, c);
    }
  }

  /** What the loop over the dependencies of lib keeps. */
  ghost predicate PassState(dependencies: Graph, direct: Graph, before: Graph, lib: Node, done: set<Node>,
                            consumers: Graph, grew: bool)
  {
    forall mark: int {:trigger Opened(mark)} :: Opened(mark) ==>
      && Sound(dependencies, direct, consumers) && Holds(direct, consumers)
      && Passing(before, lib, done, consumers, grew)
  }

  lemma PassStateStep(dependencies: Graph, direct: Graph, before: Graph, lib: Node, done: set<Node>,
                      consumers: Graph, grew: bool, dep: Node)
    requires Resolved(dependencies) && lib in dependencies && dep in dependencies[lib]
    requires PassState(dependencies, direct, before, lib, done, consumers, grew)
    ensures dep in consumers && lib in consumers
    ensures var merged := consumers[dep := consumers[dep] + consumers[lib]];
            PassState(dependencies, direct, before, lib, done + {dep}, merged,
                      grew || |merged[dep]| != |consumers[dep]|)
  {
    assert Opened(0);
    MergeIsSound(dependencies, direct, consumers, lib, dep);
    PassStep(before, lib, done, consumers, grew, dep);
  }

  /** Merge the consumers of one library into each of its dependencies, in any order. */
  method PassOn(dependencies: Graph, direct: Graph, before: Graph, lib: Node) returns (consumers: Graph, grew: bool)
    requires Resolved(dependencies) && lib in dependencies
    requires Sound(dependencies, direct, before) && Holds(direct, before)
    ensures Sound(dependencies, direct, consumers) && Holds(direct, consumers)
    ensures Passing(before, lib, dependencies[lib], consumers, grew)
  {
    consumers, grew := before, false;
    var todo := dependencies[lib];
    ghost var done: set<Node> := {};
    while todo != {}
      invariant todo + done == dependencies[lib]
      invariant PassState(dependencies, direct, before, lib, done, consumers, grew)
      decreases |todo|
    {
      var dep :| dep in todo;
      PassStateStep(dependencies, direct, before, lib, done, consumers, grew, dep);
      var size := |consumers[dep]|;
      consumers := consumers[dep := consumers[dep] + consumers[lib]];
      grew := grew || |consumers[dep]| != size;
      todo, done := todo - {dep}, done + {dep};
    }
    assert Opened(0);
  }

  /** The chaotic iteration: whatever order libraries and dependencies come in, cycles included, it ends with
      each library consumed by exactly the direct consumers of the libraries that reach it. */
  method TransitiveConsumers(dependencies: Graph, direct: Graph) returns (consumers: Graph)
    requires Resolved(dependencies) && direct.Keys == dependencies.Keys
    ensures consumers.Keys == dependencies.Keys
    ensures forall b, c :: b in dependencies ==> (c in consumers[b] <==> Consumes(dependencies, direct, b, c))
  {
    consumers := direct;
    forall b, c | b in consumers && c in consumers[b]
      ensures Consumes(dependencies, direct, b, c)
    {
      ConsumesDirect(dependencies, direct, b, c);
    }
    var pending := true;
    while pending
      invariant Sound(dependencies, direct, consumers) && Holds(direct, consumers)
      invariant !pending ==> Settled(dependencies, consumers, dependencies.Keys)
      decreases AllPairs(dependencies, direct) - Pairs(consumers), pending
    {
      ghost var start := consumers;
      consumers, pending := SweepOnce(dependencies, direct, consumers);
      PairsWithin(dependencies, direct, start);
      PairsWithin(dependencies, direct, consumers);
      if pending {
        GrowthShows(start, consumers);
      }
    }
    SettledIsExact(dependencies, direct, consumers);
  }

  /** One pass over all libraries, in any order. */
  method SweepOnce(dependencies: Graph, direct: Graph, start: Graph) returns (consumers: Graph, pending: bool)
    requires Resolved(dependencies) && Sound(dependencies, direct, start) && Holds(direct, start)
    ensures Sound(dependencies, direct, consumers) && Holds(direct, consumers)
    ensures Extends(start, consumers) && (pending <==> consumers != start)
    ensures !pending ==> Settled(dependencies, consumers, dependencies.Keys)
  {
    consumers, pending := start, false;
    var libs := dependencies.Keys;
    ghost var done: set<Node> := {};
    while libs != {}
      invariant libs + done == dependencies.Keys
      invariant Sound(dependencies, direct, consumers) && Holds(direct, consumers)
      invariant Extends(start, consumers) && (pending <==> consumers != start)
      invariant !pending ==> Settled(dependencies, consumers, done)
      decreases |libs|
    {
      var lib :| lib in libs;
      var grew: bool;
      ghost var before := consumers;
      consumers, grew := PassOn(dependencies, direct, consumers, lib);
      ExtendsThrough(start, before, consumers);
      pending := pending || grew;
      libs, done := libs - {lib}, done + {lib};
    }
  }
}
