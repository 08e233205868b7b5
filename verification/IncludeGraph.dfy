/** Include searches over the checkout (scripts/ci_include_graph.py). */
module IncludeGraph {
  import opened Reach
  import opened Results

  // ---- A search that marks nodes when it pops them ----

  /** Unmarked nodes may stand on the stack several times. */
  ghost predicate Draining(g: Graph, roots: set<Node>, seen: set<Node>, stack: seq<Node>) {
    && seen <= Universe(g, roots)
    && (forall x :: x in roots ==> x in seen || x in stack)
    && (forall x :: x in seen ==> ReachedFrom(g, roots, x))
    && (forall x :: x in stack ==> ReachedFrom(g, roots, x) && x in Universe(g, roots))
    && forall x, y :: x in seen && y in Next(g, x) ==> y in seen || y in stack
  }

  function Elements(s: seq<Node>): set<Node> {
    set x | x in s
  }

  method PushAll(items: set<Node>, stack: seq<Node>) returns (stack': seq<Node>)
    ensures forall x :: x in stack' <==> x in stack || x in items
  {
    stack' := stack;
    var todo := items;
    while todo != {}
      invariant todo <= items
      invariant forall x :: x in stack' <==> x in stack || x in items - todo
      decreases |todo|
    {
      var item :| item in todo;
      stack' := stack' + [item];
      todo := todo - {item};
    }
  }

  /** The successors of the marked node are pushed; those marked already may be left out. */
  lemma DrainStep(g: Graph, roots: set<Node>, seen: set<Node>, stack: seq<Node>, stack': seq<Node>)
    requires stack != [] && Draining(g, roots, seen, stack)
    requires var current, rest := stack[|stack| - 1], stack[..|stack| - 1];
             forall x :: (x in stack' ==> x in rest || x in Next(g, current))
                         && (x in rest || x in Next(g, current) - (seen + {current}) ==> x in stack')
    ensures Draining(g, roots, seen + {stack[|stack| - 1]}, stack')
  {
    var current, rest := stack[|stack| - 1], stack[..|stack| - 1];
    assert current in stack;
    assert forall x :: x in stack <==> x in rest || x == current;
    forall y | y in Next(g, current)
      ensures ReachedFrom(g, roots, y) && y in Universe(g, roots)
    {
      ReachedStep(g, roots, current, y);
    }
  }

  lemma DrainSkip(g: Graph, roots: set<Node>, seen: set<Node>, stack: seq<Node>)
    requires stack != [] && Draining(g, roots, seen, stack) && stack[|stack| - 1] in seen
    ensures Draining(g, roots, seen, stack[..|stack| - 1])
  {
    var current, rest := stack[|stack| - 1], stack[..|stack| - 1];
    assert forall x :: x in stack <==> x in rest || x == current;
  }

  lemma DrainStart(g: Graph, roots: seq<Node>)
    ensures Draining(g, Elements(roots), {}, roots)
  {
    forall x | x in roots
      ensures ReachedFrom(g, Elements(roots), x)
    {
      ReachesItself(g, x);
    }
  }

  lemma DrainDone(g: Graph, roots: set<Node>, seen: set<Node>)
    requires Draining(g, roots, seen, [])
    ensures IsClosure(g, roots, seen)
  {
    ClosureExact(g, roots, seen);
  }

  /** Roots and every header they pull in, whatever order the stack is emptied in. Absent headers are nodes
      without successors. */
  method TransitiveClosure(roots: seq<Node>, headers: Graph) returns (seen: set<Node>)
    ensures IsClosure(headers, Elements(roots), seen)
  {
    ghost var start := Elements(roots);
    seen := {};
    var stack := roots;
    DrainStart(headers, roots);
    while stack != []
      invariant Draining(headers, start, seen, stack)
      decreases |Universe(headers, start) - seen|, |stack|
    {
      var current, rest := stack[|stack| - 1], stack[..|stack| - 1];
      if current in seen {
        DrainSkip(headers, start, seen, stack);
        stack := rest;
      } else {
        ghost var before, stackBefore := seen, stack;
        seen := seen + {current};
        stack := PushAll(Next(headers, current) - seen, rest);
        DrainStep(headers, start, before, stackBefore, stack);
        SearchProgress(headers, start, before, seen);
      }
    }
    DrainDone(headers, start, seen);
  }

  // ---- Source dependencies ----

  type FilePath = Node

  /** The include directives of one file. */
  datatype SourceText = SourceText(nodes: set<Node>, quoted: set<string>)

  /** A checkout: its readable files, the files that exist but cannot be read, the paths inside it, and path
      resolution. */
  datatype Repo = Repo(
    files: map<FilePath, SourceText>,
    unreadable: set<FilePath>,
    inside: set<FilePath>,
    header: Node -> FilePath,
    beside: (FilePath, string) -> FilePath,
    support: string -> FilePath)

  datatype GraphError = SourceNotFound | Unreadable

  predicate IsFile(repo: Repo, path: FilePath) {
    path in repo.files || path in repo.unreadable
  }

  function Candidates(repo: Repo, path: FilePath, quoted: string, isTest: bool): seq<FilePath> {
    [repo.beside(path, quoted), repo.header(quoted)] + if isTest then [repo.support(quoted)] else []
  }

  /** The first candidate that is a file of the checkout. */
  function Resolve(repo: Repo, candidates: seq<FilePath>): Option<FilePath> {
    if candidates == [] then None
    else if candidates[0] in repo.inside && IsFile(repo, candidates[0]) then Some(candidates[0])
    else Resolve(repo, candidates[1..])
  }

  function Dependencies(repo: Repo, path: FilePath, isTest: bool): set<FilePath>
    requires path in repo.files
  {
    var text := repo.files[path];
    (set n | n in text.nodes :: repo.header(n)) +
    set q | q in text.quoted && Resolve(repo, Candidates(repo, path, q, isTest)).Some? ::
      Resolve(repo, Candidates(repo, path, q, isTest)).value
  }

  function DependencyGraph(repo: Repo, isTest: bool): (g: Graph)
    ensures forall p :: Next(g, p) == if p in repo.files then Dependencies(repo, p, isTest) else {}
  {
    map p | p in repo.files :: Dependencies(repo, p, isTest)
  }

  /** A path inside the checkout where a file stands, readable or not. */
  ghost predicate Usable(repo: Repo, path: FilePath) {
    path in repo.inside && (path in repo.files || path in repo.unreadable)
  }

  /** A quoted include leads to the file beside the including one, else to the public header of that name, else, in a
      test, to the support file. */
  ghost predicate LeadsTo(repo: Repo, path: FilePath, quoted: string, isTest: bool, p: FilePath) {
    && Usable(repo, p)
    && (|| p == repo.beside(path, quoted)
        || (p == repo.header(quoted) && !Usable(repo, repo.beside(path, quoted)))
        || (isTest && p == repo.support(quoted)
            && !Usable(repo, repo.beside(path, quoted)) && !Usable(repo, repo.header(quoted))))
  }

  lemma ResolvedExactly(repo: Repo, path: FilePath, quoted: string, isTest: bool, p: FilePath)
    ensures Resolve(repo, Candidates(repo, path, quoted, isTest)) == Some(p) <==> LeadsTo(repo, path, quoted, isTest, p)
  {
    var last: seq<FilePath> := if isTest then [repo.support(quoted)] else [];
    var candidates := Candidates(repo, path, quoted, isTest);
    assert candidates[1..] == [repo.header(quoted)] + last && candidates[1..][1..] == last;
    assert Resolve(repo, candidates)
           == if Usable(repo, candidates[0]) then Some(candidates[0]) else Resolve(repo, candidates[1..]);
    assert Resolve(repo, candidates[1..])
           == if Usable(repo, repo.header(quoted)) then Some(repo.header(quoted)) else Resolve(repo, last);
    if isTest {
      assert last[0] == repo.support(quoted) && last[1..] == [];
    }
    assert Resolve(repo, last) == if isTest && Usable(repo, repo.support(quoted)) then Some(repo.support(quoted)) else None;
  }

  /** The edges of the include graph: named headers, and what the quoted includes lead to. */
  lemma DependsExactly(repo: Repo, path: FilePath, isTest: bool, p: FilePath)
    ensures p in Next(DependencyGraph(repo, isTest), path)
            <==> path in repo.files && (|| (exists n :: n in repo.files[path].nodes && repo.header(n) == p)
                                        || exists q :: q in repo.files[path].quoted && LeadsTo(repo, path, q, isTest, p))
  {
    if path in repo.files {
      forall q | q in repo.files[path].quoted
        ensures Resolve(repo, Candidates(repo, path, q, isTest)) == Some(p) <==> LeadsTo(repo, path, q, isTest, p)
      {
        ResolvedExactly(repo, path, q, isTest, p);
      }
    }
  }

  /** The source exists, and every file its includes reach can be read. */
  ghost predicate SourceReadable(repo: Repo, source: FilePath, isTest: bool) {
    IsFile(repo, source) && forall p :: p in repo.unreadable ==> !Reaches(DependencyGraph(repo, isTest), source, p)
  }

  method SourceDependencies(repo: Repo, source: FilePath, isTest: bool) returns (r: Result<set<FilePath>, GraphError>)
    ensures r.Err? <==> !SourceReadable(repo, source, isTest)
    ensures r == Err(SourceNotFound) <==> !IsFile(repo, source)
    ensures r.Ok? ==> forall p :: p in r.value <==> p in repo.inside && Reaches(DependencyGraph(repo, isTest), source, p)
  {
    if !IsFile(repo, source) {
      return Err(SourceNotFound);
    }
    ghost var g := DependencyGraph(repo, isTest);
    var seen: set<FilePath> := {};
    var pending := [source];
    ghost var start := Elements(pending);
    DrainStart(g, pending);
    while pending != []
      invariant Draining(g, start, seen, pending)
      invariant seen !! repo.unreadable
      decreases |Universe(g, start) - seen|, |pending|
    {
      var path, rest := pending[|pending| - 1], pending[..|pending| - 1];
      if path in seen {
        DrainSkip(g, start, seen, pending);
        pending := rest;
      } else if path in repo.unreadable {
        assert path in pending;
        FromOneRoot(g, source);
        return Err(Unreadable);
      } else {
        ghost var before, pendingBefore := seen, pending;
        seen := seen + {path};
        var found := if path in repo.files then Dependencies(repo, path, isTest) else {};
        pending := PushAll(found, rest);
        DrainStep(g, start, before, pendingBefore, pending);
        SearchProgress(g, start, before, seen);
      }
    }
    DrainDone(g, start, seen);
    FromOneRoot(g, source);
    return Ok(seen * repo.inside);
  }

  lemma FromOneRoot(g: Graph, source: Node)
    ensures forall p :: ReachedFrom(g, Elements([source]), p) <==> Reaches(g, source, p)
  {
    assert source in Elements([source]);
  }

  // ---- Public headers of a source ----

  const INCLUDE_PREFIX := "include/"

  /** The headers a source reaches, named relative to include/. */
  ghost predicate InSourceClosure(repo: Repo, source: FilePath, isTest: bool, n: Node) {
    && "pops/" <= n
    && INCLUDE_PREFIX + n in repo.inside
    && Reaches(DependencyGraph(repo, isTest), source, INCLUDE_PREFIX + n)
  }

  /** C++ suites compile with tests/cpp/support on their include path. */
  predicate IsTestSource(source: FilePath) {
    "tests/cpp/" <= source
  }

  /** A test sees a file that only the support directory holds; another source does not look there. */
  lemma SupportIsForTests(repo: Repo, source: FilePath, quoted: string)
    requires source in repo.files && quoted in repo.files[source].quoted && Usable(repo, repo.support(quoted))
    requires !Usable(repo, repo.beside(source, quoted)) && !Usable(repo, repo.header(quoted))
    ensures "tests/cpp/" <= source ==> Reaches(DependencyGraph(repo, IsTestSource(source)), source, repo.support(quoted))
    ensures !("tests/cpp/" <= source) ==> !LeadsTo(repo, source, quoted, IsTestSource(source), repo.support(quoted))
  {
    if "tests/cpp/" <= source {
      var g := DependencyGraph(repo, true);
      DependsExactly(repo, source, true, repo.support(quoted));
      ReachesItself(g, source);
      ReachesStep(g, source, source, repo.support(quoted));
    }
  }

  method SourceClosure(repo: Repo, source: FilePath) returns (r: Result<set<Node>, GraphError>)
    ensures r.Err? <==> !SourceReadable(repo, source, IsTestSource(source))
    ensures r.Ok? ==> forall n :: n in r.value <==> InSourceClosure(repo, source, IsTestSource(source), n)
  {
    var found := SourceDependencies(repo, source, IsTestSource(source));
    if found.Err? {
      return Err(found.error);
    }
    var nodes := set p | p in found.value && INCLUDE_PREFIX + "pops/" <= p :: p[|INCLUDE_PREFIX|..];
    forall n
      ensures n in nodes <==> InSourceClosure(repo, source, IsTestSource(source), n)
    {
      PublicName(n, found.value);
    }
    return Ok(nodes);
  }

  lemma PublicName(n: Node, paths: set<FilePath>)
    ensures n in (set p | p in paths && INCLUDE_PREFIX + "pops/" <= p :: p[|INCLUDE_PREFIX|..])
            <==> "pops/" <= n && INCLUDE_PREFIX + n in paths
  {
    var full := INCLUDE_PREFIX + n;
    assert full[|INCLUDE_PREFIX|..] == n;
    if "pops/" <= n {
      assert n == "pops/" + n[|"pops/"|..];
      assert full == (INCLUDE_PREFIX + "pops/") + n[|"pops/"|..];
    }
    if p :| p in paths && INCLUDE_PREFIX + "pops/" <= p && p[|INCLUDE_PREFIX|..] == n {
      assert p == INCLUDE_PREFIX + p[|INCLUDE_PREFIX|..];
      assert n[..|"pops/"|] == p[|INCLUDE_PREFIX|..|INCLUDE_PREFIX| + |"pops/"|] == "pops/";
    }
  }

  /** Every header name that some file includes. */
  function Mentioned(repo: Repo): set<Node> {
    set p, n | p in repo.files && n in repo.files[p].nodes :: n
  }

  /** Header-to-header includes as transitive_closure reads them: by name, opening the file the name leads to. */
  function HeaderGraph(repo: Repo): (g: Graph)
    ensures forall n :: n in Mentioned(repo) ==> Next(g, n) == HeaderIncludes(repo, n)
    ensures g.Keys == Mentioned(repo)
  {
    map n | n in Mentioned(repo) :: HeaderIncludes(repo, n)
  }

  function HeaderIncludes(repo: Repo, n: Node): set<Node> {
    if repo.header(n) in repo.files then repo.files[repo.header(n)].nodes else {}
  }

  /** A header name that resolution leaves where it is: no symbolic link, no `..`. */
  ghost predicate Canonical(repo: Repo, n: Node) {
    repo.header(n) == INCLUDE_PREFIX + n && INCLUDE_PREFIX + n in repo.inside && "pops/" <= n
  }

  /** Resolving the name of a resolved path gives that path again. */
  ghost predicate IsResolved(repo: Repo, path: FilePath) {
    INCLUDE_PREFIX <= path ==> repo.header(path[|INCLUDE_PREFIX|..]) == path
  }

  /** Path resolution is idempotent. */
  ghost predicate Idempotent(repo: Repo) {
    && (forall n :: IsResolved(repo, repo.header(n)))
    && (forall p, q :: IsResolved(repo, repo.beside(p, q)))
    && forall q :: IsResolved(repo, repo.support(q))
  }

  /** n is in the header-level closure of the source's own includes. */
  ghost predicate Included(repo: Repo, source: FilePath, n: Node)
    requires source in repo.files
  {
    ReachedFrom(HeaderGraph(repo), repo.files[source].nodes, n)
  }

  lemma ResolvedCandidate(repo: Repo, candidates: seq<FilePath>)
    requires Resolve(repo, candidates).Some?
    ensures Resolve(repo, candidates).value in candidates
  {}

  lemma DependencyIsResolved(repo: Repo, isTest: bool, before: FilePath, path: FilePath)
    requires Idempotent(repo) && path in Next(DependencyGraph(repo, isTest), before)
    ensures IsResolved(repo, path)
  {
    if h :| h in repo.files[before].nodes && path == repo.header(h) {
    } else {
      var q :| q in repo.files[before].quoted && Resolve(repo, Candidates(repo, before, q, isTest)) == Some(path);
      ResolvedCandidate(repo, Candidates(repo, before, q, isTest));
    }
  }

  lemma {:induction false} ReachedIsResolved(repo: Repo, isTest: bool, p: seq<FilePath>)
    requires Idempotent(repo) && Path(DependencyGraph(repo, isTest), p) && IsResolved(repo, p[0])
    ensures IsResolved(repo, p[|p| - 1])
    decreases |p|
  {
    var n := |p| - 1;
    if n > 0 {
      assert p[n - 1 + 1] in Next(DependencyGraph(repo, isTest), p[n - 1]);
      DependencyIsResolved(repo, isTest, p[n - 1], p[n]);
    }
  }

  /** A public header of the source closure is named as it resolves. */
  lemma ClosureIsCanonical(repo: Repo, source: FilePath, isTest: bool, n: Node)
    requires Idempotent(repo) && IsResolved(repo, source) && InSourceClosure(repo, source, isTest, n)
    ensures Canonical(repo, n)
  {
    var path := INCLUDE_PREFIX + n;
    var p :| PathBetween(DependencyGraph(repo, isTest), p, source, path);
    ReachedIsResolved(repo, isTest, p);
    assert path[|INCLUDE_PREFIX|..] == n;
  }

  /** A header included under any name is in the closure as the file it resolves to. */
  lemma ResolvedHeader(repo: Repo, source: FilePath, isTest: bool, n: Node, h: Node)
    requires source in repo.files && n in repo.files[source].nodes && repo.header(n) == INCLUDE_PREFIX + h
    requires INCLUDE_PREFIX + h in repo.inside && "pops/" <= h
    ensures InSourceClosure(repo, source, isTest, h)
  {
    var g := DependencyGraph(repo, isTest);
    ReachesItself(g, source);
    assert repo.header(n) in Dependencies(repo, source, isTest);
    ReachesStep(g, source, source, repo.header(n));
  }

  lemma DirectHeader(repo: Repo, source: FilePath, isTest: bool, n: Node)
    requires source in repo.files && n in repo.files[source].nodes && Canonical(repo, n)
    ensures InSourceClosure(repo, source, isTest, n)
  {
    ResolvedHeader(repo, source, isTest, n, n);
  }

  lemma NextHeader(repo: Repo, source: FilePath, isTest: bool, a: Node, n: Node)
    requires InSourceClosure(repo, source, isTest, a) && n in HeaderIncludes(repo, a)
    requires Canonical(repo, a) && Canonical(repo, n)
    ensures InSourceClosure(repo, source, isTest, n)
  {
    var g := DependencyGraph(repo, isTest);
    var path := INCLUDE_PREFIX + a;
    assert repo.header(n) in Dependencies(repo, path, isTest);
    ReachesStep(g, source, path, repo.header(n));
  }

  lemma {:induction false} HeaderPathIsDependency(repo: Repo, source: FilePath, isTest: bool, p: seq<Node>)
    requires source in repo.files && Path(HeaderGraph(repo), p) && p[0] in repo.files[source].nodes
    requires forall i :: 0 <= i < |p| ==> Canonical(repo, p[i])
    ensures InSourceClosure(repo, source, isTest, p[|p| - 1])
    decreases |p|
  {
    var n := |p| - 1;
    if n == 0 {
      DirectHeader(repo, source, isTest, p[0]);
    } else {
      HeaderPathIsDependency(repo, source, isTest, p[..n]);
      assert p[n - 1 + 1] in Next(HeaderGraph(repo), p[n - 1]);
      NextHeader(repo, source, isTest, p[n - 1], p[n]);
    }
  }

  lemma PrefixIncluded(repo: Repo, source: FilePath, p: seq<Node>, i: nat)
    requires source in repo.files && Path(HeaderGraph(repo), p) && p[0] in repo.files[source].nodes && i < |p|
    ensures Included(repo, source, p[i])
  {
    assert PathBetween(HeaderGraph(repo), p[..i + 1], p[0], p[i]);
  }

  /** source_closure contains the header-level closure of the source's own includes exactly when each of those headers
      is included under the name it resolves to. */
  lemma SourceClosureCoversHeaders(repo: Repo, source: FilePath, isTest: bool)
    requires Idempotent(repo) && IsResolved(repo, source) && source in repo.files
    ensures (forall n :: Included(repo, source, n) ==> InSourceClosure(repo, source, isTest, n))
            <==> forall n :: Included(repo, source, n) ==> Canonical(repo, n)
  {
    if forall n :: Included(repo, source, n) ==> InSourceClosure(repo, source, isTest, n) {
      forall n | Included(repo, source, n)
        ensures Canonical(repo, n)
      {
        ClosureIsCanonical(repo, source, isTest, n);
      }
    }
    if forall n :: Included(repo, source, n) ==> Canonical(repo, n) {
      forall n | Included(repo, source, n)
        ensures InSourceClosure(repo, source, isTest, n)
      {
        var a :| a in repo.files[source].nodes && Reaches(HeaderGraph(repo), a, n);
        var p :| PathBetween(HeaderGraph(repo), p, a, n);
        forall i | 0 <= i < |p|
          ensures Canonical(repo, p[i])
        {
          PrefixIncluded(repo, source, p, i);
        }
        HeaderPathIsDependency(repo, source, isTest, p);
      }
    }
  }

  // ---- An instance: a header named through .. ----

  const DETOUR := "pops/../pops/a.hpp"

  /** A source includes <pops/../pops/a.hpp>, which resolves to the file of <pops/a.hpp>. */
  function DetourRepo(): Repo {
    Repo(map["src/m.cpp" := SourceText({DETOUR}, {}), "include/pops/a.hpp" := SourceText({}, {})], {},
         {"src/m.cpp", "include/pops/a.hpp"},
         n => if n == DETOUR then "include/pops/a.hpp" else INCLUDE_PREFIX + n,
         (p, q) => "elsewhere", q => "elsewhere")
  }

  lemma DetourResolves()
    ensures Idempotent(DetourRepo())
  {
    var repo := DetourRepo();
    forall n
      ensures IsResolved(repo, repo.header(n))
    {
      assert (INCLUDE_PREFIX + n)[|INCLUDE_PREFIX|..] == n;
      assert "include/pops/a.hpp"[|INCLUDE_PREFIX|..] == "pops/a.hpp";
      assert "pops/a.hpp"[5] != DETOUR[5];
    }
  }

  /** transitive_closure holds the name through `..`, source_closure only the resolved one: the spelling is lost, the
      header is not. */
  lemma DetourIsLost()
    ensures Idempotent(DetourRepo()) && IsResolved(DetourRepo(), "src/m.cpp") && "src/m.cpp" in DetourRepo().files
    ensures Included(DetourRepo(), "src/m.cpp", DETOUR)
    ensures !InSourceClosure(DetourRepo(), "src/m.cpp", false, DETOUR)
    ensures InSourceClosure(DetourRepo(), "src/m.cpp", false, "pops/a.hpp")
  {
    var repo := DetourRepo();
    DetourResolves();
    DetourIncluded(repo);
    DetourSpelling(repo);
  }

  lemma DetourIncluded(repo: Repo)
    requires repo == DetourRepo()
    ensures "src/m.cpp" in repo.files && Included(repo, "src/m.cpp", DETOUR)
    ensures InSourceClosure(repo, "src/m.cpp", false, "pops/a.hpp")
  {
    ReachesItself(HeaderGraph(repo), DETOUR);
    assert INCLUDE_PREFIX + "pops/a.hpp" == "include/pops/a.hpp";
    assert "pops/a.hpp"[..5] == "pops/";
    ResolvedHeader(repo, "src/m.cpp", false, DETOUR, "pops/a.hpp");
  }

  lemma DetourSpelling(repo: Repo)
    requires repo == DetourRepo()
    ensures !InSourceClosure(repo, "src/m.cpp", false, DETOUR)
  {
    assert |INCLUDE_PREFIX + DETOUR| != |"include/pops/a.hpp"|;
    assert |INCLUDE_PREFIX + DETOUR| != |"src/m.cpp"|;
  }
}
