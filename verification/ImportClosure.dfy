/** Import-closure test selection (scripts/ci_import_closure.py). */
module ImportClosure {
  import opened Reach
  import opened Results

  // ---- Modules affected by a change ----

  method ReverseModuleClosure(seeds: set<Node>, graph: Graph) returns (closed: set<Node>)
    ensures forall m :: m in closed <==> Affected(graph, seeds, m)
  {
    var reverse := Reverse(graph);
    var frontier := set m | m in seeds && m in graph;
    var stack: seq<Node>;
    closed, stack := PushNew(frontier, {}, []);
    SearchStart(reverse, frontier, stack);
    while stack != []
      invariant Searching(reverse, frontier, closed, stack)
      decreases |Universe(reverse, frontier) - closed|, |stack|
    {
      var current, rest := stack[|stack| - 1], stack[..|stack| - 1];
      ghost var before, stackBefore := closed, stack;
      closed, stack := PushNew(Next(reverse, current), closed, rest);
      SearchStep(reverse, frontier, before, stackBefore, closed, stack);
      SearchProgress(reverse, frontier, before, closed);
    }
    SearchDone(reverse, frontier, closed);
    AffectedIsReached(graph, reverse, seeds);
  }

  /** m imports, transitively, a changed module of the graph. */
  ghost predicate Affected(graph: Graph, seeds: set<Node>, m: Node) {
    exists s :: s in seeds && s in graph && Reaches(graph, m, s)
  }

  lemma AffectedIsReached(graph: Graph, reverse: Graph, seeds: set<Node>)
    requires Reversal(graph, reverse)
    ensures forall m :: Affected(graph, seeds, m)
              <==> ReachedFrom(reverse, (set s | s in seeds && s in graph), m)
  {
    var frontier := set s | s in seeds && s in graph;
    forall m
      ensures Affected(graph, seeds, m) <==> ReachedFrom(reverse, frontier, m)
    {
      forall s
        ensures Reaches(graph, m, s) <==> Reaches(reverse, s, m)
      {
        ReversalReaches(graph, reverse, m, s);
      }
    }
  }

  // ---- Tests joined by cross-test imports ----

  /** Cross-test edges in both directions. */
  function Links(testToTest: Graph): (links: Graph)
    ensures forall a, b :: b in Next(links, a) <==> b in Next(testToTest, a) || a in Next(testToTest, b)
  {
    map a | a in Universe(testToTest, {}) ::
      Next(testToTest, a) + set b | b in testToTest && a in testToTest[b]
  }

  /** Push the helpers a test imports, then the tests that import it. */
  method PushLinked(testToTest: Graph, reverse: Graph, current: Node, marked: set<Node>, stack: seq<Node>)
    returns (marked': set<Node>, stack': seq<Node>)
    requires Reversal(testToTest, reverse)
    ensures marked' == marked + Next(Links(testToTest), current)
    ensures forall x :: x in stack' <==> x in stack || x in Next(Links(testToTest), current) - marked
    ensures marked' == marked ==> stack' == stack
  {
    marked', stack' := PushNew(Next(testToTest, current), marked, stack);
    marked', stack' := PushNew(Next(reverse, current), marked', stack');
    forall x
      ensures x in Next(Links(testToTest), current) <==> x in Next(testToTest, current) + Next(reverse, current)
    {
      assert current in Next(testToTest, x) <==> x in Next(reverse, current);
    }
  }

  /** The selection that the closure grows in place. */
  class TestSelection {
    var selected: set<Node>

    constructor (selected: set<Node>)
      ensures this.selected == selected
    {
      this.selected := selected;
    }

    method CloseCrossTest(testToTest: Graph)
      modifies this
      ensures IsClosure(Links(testToTest), old(selected), selected)
    {
      var reverse := Reverse(testToTest);
      ghost var links, roots := Links(testToTest), selected;
      var stack: seq<Node>;
      var start: set<Node>;
      start, stack := PushNew(selected, {}, []);
      SearchStart(links, roots, stack);
      while stack != []
        invariant Searching(links, roots, selected, stack)
        decreases |Universe(links, roots) - selected|, |stack|
      {
        var current, rest := stack[|stack| - 1], stack[..|stack| - 1];
        ghost var before, stackBefore := selected, stack;
        selected, stack := PushLinked(testToTest, reverse, current, selected, rest);
        SearchStep(links, roots, before, stackBefore, selected, stack);
        SearchProgress(links, roots, before, selected);
      }
      SearchDone(links, roots, selected);
    }
  }

  // ---- impacted_tests ----

  /** A changed path, after the prefix and suffix filter and the lookup of its module name. */
  datatype Change = Foreign | Unnamed | Module(name: Node)

  datatype ImpactError = OffGraphChange

  predicate OffGraph(graph: Graph, change: Change) {
    change.Unnamed? || (change.Module? && change.name !in graph)
  }

  ghost predicate SomeOffGraph(graph: Graph, changes: seq<Change>) {
    exists i :: 0 <= i < |changes| && OffGraph(graph, changes[i])
  }

  function Seeds(changes: seq<Change>): set<Node> {
    set c | c in changes && c.Module? :: c.name
  }

  /** The test imports a module that reaches a changed module. */
  ghost predicate DirectlyImpacted(graph: Graph, testToPops: Graph, seeds: set<Node>, test: Node) {
    exists m :: m in Next(testToPops, test) && Affected(graph, seeds, m)
  }

  /** A chain of cross-test edges, taken either way, joins the test to a directly impacted one. */
  ghost predicate Impacted(graph: Graph, testToPops: Graph, testToTest: Graph, seeds: set<Node>, test: Node) {
    exists start :: DirectlyImpacted(graph, testToPops, seeds, start) && Reaches(Links(testToTest), start, test)
  }

  method ImpactedTests(graph: Graph, testToPops: Graph, testToTest: Graph, changes: seq<Change>)
    returns (r: Result<set<Node>, ImpactError>)
    ensures r.Err? <==> SomeOffGraph(graph, changes)
    ensures r.Ok? ==> forall test :: test in r.value <==> Impacted(graph, testToPops, testToTest, Seeds(changes), test)
  {
    var seeds: set<Node> := {};
    for i := 0 to |changes|
      invariant seeds == Seeds(changes[..i])
      invariant !SomeOffGraph(graph, changes[..i])
    {
      assert changes[..i + 1] == changes[..i] + [changes[i]];
      match changes[i]
      case Foreign =>
      case Unnamed =>
        assert OffGraph(graph, changes[i]);
        return Err(OffGraphChange);
      case Module(name) =>
        if name !in graph {
          assert OffGraph(graph, changes[i]);
          return Err(OffGraphChange);
        }
        seeds := seeds + {name};
    }
    assert changes[..|changes|] == changes;
    if seeds == {} {
      return Ok({});
    }
    var affected := ReverseModuleClosure(seeds, graph);
    var direct := set test | test in testToPops && testToPops[test] * affected != {};
    DirectIsDirectlyImpacted(graph, testToPops, seeds, affected, direct);
    var selection := new TestSelection(direct);
    selection.CloseCrossTest(testToTest);
    return Ok(selection.selected);
  }

  lemma DirectIsDirectlyImpacted(graph: Graph, testToPops: Graph, seeds: set<Node>, affected: set<Node>, direct: set<Node>)
    requires forall m :: m in affected <==> Affected(graph, seeds, m)
    requires direct == set test | test in testToPops && testToPops[test] * affected != {}
    ensures forall test :: test in direct <==> DirectlyImpacted(graph, testToPops, seeds, test)
  {
    forall test
      ensures test in direct <==> DirectlyImpacted(graph, testToPops, seeds, test)
    {
      if test in direct {
        var m :| m in testToPops[test] * affected;
        assert m in Next(testToPops, test);
      }
      if m :| m in Next(testToPops, test) && Affected(graph, seeds, m) {
        assert m in testToPops[test] * affected;
      }
    }
  }

  /** Changes add up: the impact of two change lists together is the union of their impacts. */
  lemma ImpactOfUnion(graph: Graph, testToPops: Graph, testToTest: Graph, a: seq<Change>, b: seq<Change>, test: Node)
    ensures Impacted(graph, testToPops, testToTest, Seeds(a + b), test)
            <==> Impacted(graph, testToPops, testToTest, Seeds(a), test)
                 || Impacted(graph, testToPops, testToTest, Seeds(b), test)
    ensures SomeOffGraph(graph, a + b) <==> SomeOffGraph(graph, a) || SomeOffGraph(graph, b)
  {
    assert Seeds(a + b) == Seeds(a) + Seeds(b);
    forall m
      ensures Affected(graph, Seeds(a + b), m) <==> Affected(graph, Seeds(a), m) || Affected(graph, Seeds(b), m)
    {}
    forall start
      ensures DirectlyImpacted(graph, testToPops, Seeds(a + b), start)
              <==> DirectlyImpacted(graph, testToPops, Seeds(a), start)
                   || DirectlyImpacted(graph, testToPops, Seeds(b), start)
    {}
    OffGraphOfUnion(graph, a, b);
  }

  lemma OffGraphOfUnion(graph: Graph, a: seq<Change>, b: seq<Change>)
    ensures SomeOffGraph(graph, a + b) <==> SomeOffGraph(graph, a) || SomeOffGraph(graph, b)
  {
    var all := a + b;
    if i :| 0 <= i < |all| && OffGraph(graph, all[i]) {
      if i < |a| {
        assert OffGraph(graph, a[i]);
      } else {
        assert OffGraph(graph, b[i - |a|]);
      }
    }
    if i :| 0 <= i < |a| && OffGraph(graph, a[i]) {
      assert OffGraph(graph, all[i]);
    }
    if i :| 0 <= i < |b| && OffGraph(graph, b[i]) {
      assert OffGraph(graph, all[|a| + i]);
    }
  }
}
