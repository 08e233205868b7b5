/** Finite directed graphs, paths, and what a worklist search must compute. */
module Reach {
  import opened Markers

  type Node = string

  type Graph = map<Node, set<Node>>

  function Next(g: Graph, a: Node): set<Node> {
    if a in g then g[a] else {}
  }

  lemma NextOfEmpty(b: Node)
    ensures Next(map[], b) == {}
  {}

  lemma NextOfUpdate(g: Graph, a: Node, targets: set<Node>, b: Node)
    ensures Next(g[a := targets], b) == if b == a then targets else Next(g, b)
  {}

  ghost predicate Path(g: Graph, p: seq<Node>) {
    p != [] && forall i :: 0 <= i < |p| - 1 ==> p[i + 1] in Next(g, p[i])
  }

  ghost predicate PathBetween(g: Graph, p: seq<Node>, a: Node, b: Node) {
    Path(g, p) && p[0] == a && p[|p| - 1] == b
  }

  /** b can be reached from a in zero or more steps. */
  ghost predicate Reaches(g: Graph, a: Node, b: Node) {
    exists p :: PathBetween(g, p, a, b)
  }

  ghost predicate ReachedFrom(g: Graph, roots: set<Node>, b: Node) {
    exists a :: a in roots && Reaches(g, a, b)
  }

  ghost predicate Closed(g: Graph, s: set<Node>) {
    forall a :: a in s ==> Next(g, a) <= s
  }

  lemma ReachesItself(g: Graph, a: Node)
    ensures Reaches(g, a, a)
  {
    assert PathBetween(g, [a], a, a);
  }

  lemma ReachesStep(g: Graph, a: Node, b: Node, c: Node)
    requires Reaches(g, a, b) && c in Next(g, b)
    ensures Reaches(g, a, c)
  {
    var p :| PathBetween(g, p, a, b);
    assert PathBetween(g, p + [c], a, c);
  }

  lemma ReachedStep(g: Graph, roots: set<Node>, b: Node, c: Node)
    requires ReachedFrom(g, roots, b) && c in Next(g, b)
    ensures ReachedFrom(g, roots, c)
  {
    var a :| a in roots && Reaches(g, a, b);
    ReachesStep(g, a, b, c);
  }

  lemma {:induction false} ClosedPath(g: Graph, s: set<Node>, p: seq<Node>)
    requires Closed(g, s) && Path(g, p) && p[0] in s
    ensures p[|p| - 1] in s
  {
    if |p| > 1 {
      assert p[1] in Next(g, p[0]);
      var q := p[1..];
      forall i | 0 <= i < |q| - 1
        ensures q[i + 1] in Next(g, q[i])
      {
        var j := i + 1;
        assert p[j + 1] in Next(g, p[j]);
      }
      ClosedPath(g, s, q);
    }
  }

  /** A closed set holds everything its members reach. */
  lemma ClosedHolds(g: Graph, s: set<Node>, a: Node, b: Node)
    requires Closed(g, s) && a in s && Reaches(g, a, b)
    ensures b in s
  {
    var p :| PathBetween(g, p, a, b);
    ClosedPath(g, s, p);
  }

  /** s is exactly the set of nodes reached from the roots. */
  ghost predicate IsClosure(g: Graph, roots: set<Node>, s: set<Node>) {
    forall b :: b in s <==> ReachedFrom(g, roots, b)
  }

  /** A closed set of reached nodes that holds the roots is the closure, hence the least such set. */
  lemma ClosureExact(g: Graph, roots: set<Node>, s: set<Node>)
    requires roots <= s && Closed(g, s)
    requires forall b :: b in s ==> ReachedFrom(g, roots, b)
    ensures IsClosure(g, roots, s)
  {
    forall b | ReachedFrom(g, roots, b)
      ensures b in s
    {
      var a :| a in roots && Reaches(g, a, b);
      ClosedHolds(g, s, a, b);
    }
  }

  lemma ClosureLeast(g: Graph, roots: set<Node>, s: set<Node>, other: set<Node>)
    requires IsClosure(g, roots, s)
    ensures roots <= s && Closed(g, s)
    ensures roots <= other && Closed(g, other) ==> s <= other
  {
    forall a | a in roots
      ensures a in s
    {
      ReachesItself(g, a);
    }
    forall b, c | b in s && c in Next(g, b)
      ensures c in s
    {
      ReachedStep(g, roots, b, c);
    }
    if roots <= other && Closed(g, other) {
      forall b | b in s
        ensures b in other
      {
        var a :| a in roots && Reaches(g, a, b);
        ClosedHolds(g, other, a, b);
      }
    }
  }

  /** Closures of a union of roots. */
  lemma ClosureUnion(g: Graph, a: set<Node>, b: set<Node>, sa: set<Node>, sb: set<Node>, s: set<Node>)
    requires IsClosure(g, a, sa) && IsClosure(g, b, sb) && IsClosure(g, a + b, s)
    ensures s == sa + sb
  {
    forall x
      ensures x in s <==> x in sa + sb
    {
      assert ReachedFrom(g, a + b, x) <==> ReachedFrom(g, a, x) || ReachedFrom(g, b, x);
    }
  }

  // ---- Reversal ----

  /** r has the edges of g turned round. */
  ghost predicate Reversal(g: Graph, r: Graph) {
    forall a, b :: b in Next(g, a) <==> a in Next(r, b)
  }

  lemma ReversalPath(g: Graph, r: Graph, p: seq<Node>, a: Node, b: Node) returns (q: seq<Node>)
    requires Reversal(g, r) && PathBetween(g, p, a, b)
    ensures PathBetween(r, q, b, a)
  {
    q := seq(|p|, i requires 0 <= i < |p| => p[|p| - 1 - i]);
    forall i | 0 <= i < |q| - 1
      ensures q[i + 1] in Next(r, q[i])
    {
      var j := |p| - 2 - i;
      assert p[j + 1] in Next(g, p[j]);
    }
  }

  lemma ReversalReaches(g: Graph, r: Graph, a: Node, b: Node)
    requires Reversal(g, r)
    ensures Reaches(g, a, b) <==> Reaches(r, b, a)
  {
    if p :| PathBetween(g, p, a, b) {
      var q := ReversalPath(g, r, p, a, b);
    }
    if p :| PathBetween(r, p, b, a) {
      assert Reversal(r, g);
      var q := ReversalPath(r, g, p, b, a);
    }
  }

  /** r has source as a further predecessor of the targets done so far. */
  ghost predicate Recorded(reverse: Graph, source: Node, done: set<Node>, r: Graph) {
    forall mark: int {:trigger Opened(mark)} :: Opened(mark) ==>
      forall a, b :: a in Next(r, b) <==> a in Next(reverse, b) || (a == source && b in done)
  }

  lemma RecordStart(reverse: Graph, source: Node)
    ensures Recorded(reverse, source, {}, reverse)
  {}

  lemma RecordStep(reverse: Graph, source: Node, done: set<Node>, r: Graph, target: Node)
    requires Recorded(reverse, source, done, r)
    ensures Recorded(reverse, source, done + {target}, r[target := Next(r, target) + {source}])
  {
    assert Opened(0);
    var next := r[target := Next(r, target) + {source}];
    forall a, b
      ensures a in Next(next, b) <==> a in Next(reverse, b) || (a == source && b in done + {target})
    {
      NextOfUpdate(r, target, Next(r, target) + {source}, b);
      assert a in Next(r, b) <==> a in Next(reverse, b) || (a == source && b in done);
    }
  }

  /** Record source as a predecessor of every target, in any order. */
  method AddPredecessor(reverse: Graph, source: Node, targets: set<Node>) returns (r: Graph)
    ensures Recorded(reverse, source, targets, r)
  {
    r := reverse;
    var todo := targets;
    ghost var done: set<Node> := {};
    RecordStart(reverse, source);
    while todo != {}
      invariant todo + done == targets
      invariant Recorded(reverse, source, done, r)
      decreases |todo|
    {
      var target :| target in todo;
      RecordStep(reverse, source, done, r, target);
      r := r[target := Next(r, target) + {source}];
      todo, done := todo - {target}, done + {target};
    }
  }

  /** reverse has the edges out of the nodes done so far, turned round. */
  ghost predicate Turned(g: Graph, done: set<Node>, reverse: Graph) {
    forall a, b :: a in Next(reverse, b) <==> a in done && b in Next(g, a)
  }

  lemma TurnedStart(g: Graph)
    ensures Turned(g, {}, map[])
  {
    forall b
      ensures Next(map[], b) == {}
    {
      NextOfEmpty(b);
    }
  }

  lemma TurnedStep(g: Graph, done: set<Node>, reverse: Graph, source: Node, next: Graph)
    requires source in g && Turned(g, done, reverse) && Recorded(reverse, source, g[source], next)
    ensures Turned(g, done + {source}, next)
  {
    assert Opened(0);
    forall a, b
      ensures a in Next(next, b) <==> a in done + {source} && b in Next(g, a)
    {
      assert a in Next(next, b) <==> a in Next(reverse, b) || (a == source && b in g[source]);
      assert a in Next(reverse, b) <==> a in done && b in Next(g, a);
    }
  }

  /** The reverse adjacency, built edge by edge in any order. */
  method Reverse(g: Graph) returns (reverse: Graph)
    ensures Reversal(g, reverse)
  {
    reverse := map[];
    var todo := g.Keys;
    ghost var done: set<Node> := {};
    TurnedStart(g);
    while todo != {}
      invariant todo + done == g.Keys
      invariant Turned(g, done, reverse)
      decreases |todo|
    {
      var source :| source in todo;
      var next := AddPredecessor(reverse, source, g[source]);
      TurnedStep(g, done, reverse, source, next);
      reverse := next;
      todo, done := todo - {source}, done + {source};
    }
  }

  // ---- Worklists ----

  /** The nodes a search can ever meet. */
  function Universe(g: Graph, roots: set<Node>): set<Node> {
    roots + g.Keys + set a, b | a in g && b in g[a] :: b
  }

  /** State of a search that marks nodes when it pushes them. */
  ghost predicate Searching(g: Graph, roots: set<Node>, marked: set<Node>, stack: seq<Node>) {
    && roots <= marked <= Universe(g, roots)
    && (forall x :: x in stack ==> x in marked)
    && (forall x :: x in marked ==> ReachedFrom(g, roots, x))
    && forall x :: x in marked && x !in stack ==> Next(g, x) <= marked
  }

  /** Push every item not yet marked, in any order. */
  method PushNew(items: set<Node>, marked: set<Node>, stack: seq<Node>)
    returns (marked': set<Node>, stack': seq<Node>)
    ensures marked' == marked + items
    ensures forall x :: x in stack' <==> x in stack || x in items - marked
    ensures items <= marked ==> stack' == stack
  {
    marked', stack' := marked, stack;
    var todo := items;
    while todo != {}
      invariant todo <= items
      invariant marked' == marked + (items - todo)
      invariant forall x :: x in stack' <==> x in stack || x in (items - todo) - marked
      invariant items <= marked ==> stack' == stack
      decreases |todo|
    {
      var item :| item in todo;
      if item !in marked' {
        marked' := marked' + {item};
        stack' := stack' + [item];
      }
      todo := todo - {item};
    }
  }

  /** One step: the popped node's successors are pushed unless marked. */
  lemma SearchStep(g: Graph, roots: set<Node>, marked: set<Node>, stack: seq<Node>,
                   marked': set<Node>, stack': seq<Node>)
    requires stack != [] && Searching(g, roots, marked, stack)
    requires var current, rest := stack[|stack| - 1], stack[..|stack| - 1];
             && marked' == marked + Next(g, current)
             && forall x :: x in stack' <==> x in rest || x in Next(g, current) - marked
    ensures Searching(g, roots, marked', stack')
  {
    var current, rest := stack[|stack| - 1], stack[..|stack| - 1];
    assert current in stack;
    assert forall x :: x in stack <==> x in rest || x == current;
    forall x | x in Next(g, current)
      ensures ReachedFrom(g, roots, x)
    {
      ReachedStep(g, roots, current, x);
    }
  }

  lemma SearchStart(g: Graph, roots: set<Node>, stack: seq<Node>)
    requires forall x :: x in stack <==> x in roots
    ensures Searching(g, roots, roots, stack)
  {
    forall x | x in roots
      ensures ReachedFrom(g, roots, x)
    {
      ReachesItself(g, x);
    }
  }

  /** With an empty stack the marked nodes are the closure. */
  lemma SearchDone(g: Graph, roots: set<Node>, marked: set<Node>)
    requires Searching(g, roots, marked, [])
    ensures IsClosure(g, roots, marked)
  {
    ClosureExact(g, roots, marked);
  }

  /** What bounds the search: nodes left to mark, then stack entries left to pop. */
  lemma SearchProgress(g: Graph, roots: set<Node>, marked: set<Node>, marked': set<Node>)
    requires marked <= marked' <= Universe(g, roots)
    ensures |Universe(g, roots) - marked'| <= |Universe(g, roots) - marked|
    ensures marked != marked' ==> |Universe(g, roots) - marked'| < |Universe(g, roots) - marked|
  {
    ProperSubset(Universe(g, roots), marked, marked');
  }

  lemma ProperSubset(all: set<Node>, a: set<Node>, b: set<Node>)
    requires a <= b <= all
    ensures |all - b| <= |all - a|
    ensures a != b ==> |all - b| < |all - a|
  {
    assert all - a == (all - b) + (b - a);
    assert a != b ==> b - a != {};
  }
}
