/** Total orders and the sorted sequence they determine. */
module Order {

  ghost predicate TotalOrder<T(!new)>(le: (T, T) -> bool) {
    && (forall a :: le(a, a))
    && (forall a, b :: le(a, b) || le(b, a))
    && (forall a, b :: le(a, b) && le(b, a) ==> a == b)
    && (forall a, b, c :: le(a, b) && le(b, c) ==> le(a, c))
  }

  ghost predicate Sorted<T>(s: seq<T>, le: (T, T) -> bool) {
    forall i, j :: 0 <= i < j < |s| ==> le(s[i], s[j])
  }

  ghost predicate Distinct<T>(s: seq<T>) {
    forall i, j :: 0 <= i < j < |s| ==> s[i] != s[j]
  }

  /** Place x before the first element it does not exceed. */
  function Insert<T(!new)>(x: T, s: seq<T>, le: (T, T) -> bool): (r: seq<T>)
    requires TotalOrder(le) && Sorted(s, le)
    ensures Sorted(r, le)
    ensures multiset(r) == multiset(s) + multiset{x}
    ensures |r| == |s| + 1
  {
    if s == [] || le(x, s[0]) then
      [x] + s
    else
      InsertKeepsOrder(x, s, Insert(x, s[1..], le), le);
      [s[0]] + Insert(x, s[1..], le)
  }

  lemma InsertKeepsOrder<T(!new)>(x: T, s: seq<T>, rest: seq<T>, le: (T, T) -> bool)
    requires s != [] && TotalOrder(le) && Sorted(s, le) && !le(x, s[0])
    requires Sorted(rest, le) && multiset(rest) == multiset(s[1..]) + multiset{x}
    ensures Sorted([s[0]] + rest, le)
    ensures multiset([s[0]] + rest) == multiset(s) + multiset{x}
  {
    assert s == [s[0]] + s[1..];
    forall j | 0 <= j < |rest|
      ensures le(s[0], rest[j])
    {
      assert rest[j] in multiset(rest);
      if rest[j] != x {
        assert rest[j] in s[1..];
      }
    }
  }

  /** The library sort: the elements of s in order, keeping multiplicity. */
  function Sort<T(!new)>(s: seq<T>, le: (T, T) -> bool): (r: seq<T>)
    requires TotalOrder(le)
    ensures Sorted(r, le)
    ensures multiset(r) == multiset(s)
    ensures |r| == |s|
  {
    if s == [] then []
    else
      assert s == [s[0]] + s[1..];
      Insert(s[0], Sort(s[1..], le), le)
  }

  lemma SameMembers<T>(a: seq<T>, b: seq<T>)
    requires multiset(a) == multiset(b)
    ensures forall x :: x in a <==> x in b
    ensures |a| == |b|
  {
    assert |multiset(a)| == |a| && |multiset(b)| == |b|;
    forall x
      ensures x in a <==> x in b
    {
      assert x in a <==> x in multiset(a);
      assert x in b <==> x in multiset(b);
    }
  }

  /** A multiset has only one sorted listing, so sorting forgets the input order. */
  lemma {:induction false} SortedUnique<T(!new)>(a: seq<T>, b: seq<T>, le: (T, T) -> bool)
    requires TotalOrder(le) && Sorted(a, le) && Sorted(b, le)
    requires multiset(a) == multiset(b)
    ensures a == b
  {
    SameMembers(a, b);
    if a != [] {
      SortedHeads(a, b, le);
      TailMultiset(a);
      TailMultiset(b);
      SortedUnique(a[1..], b[1..], le);
      assert a == [a[0]] + a[1..] && b == [b[0]] + b[1..];
    }
  }

  lemma SortedHeads<T(!new)>(a: seq<T>, b: seq<T>, le: (T, T) -> bool)
    requires TotalOrder(le) && Sorted(a, le) && Sorted(b, le)
    requires a != [] && b != [] && multiset(a) == multiset(b)
    ensures a[0] == b[0]
  {
    SameMembers(a, b);
    assert a[0] in b && b[0] in a;
    assert le(a[0], b[0]) && le(b[0], a[0]);
  }

  lemma TailMultiset<T>(s: seq<T>)
    requires s != []
    ensures multiset(s[1..]) == multiset(s) - multiset{s[0]}
  {
    assert s == [s[0]] + s[1..];
  }

  lemma DistinctMultiset<T>(s: seq<T>)
    requires Distinct(s)
    ensures forall x :: multiset(s)[x] == if x in s then 1 else 0
  {
    if s != [] {
      var n := |s| - 1;
      assert s == s[..n] + [s[n]];
      DistinctMultiset(s[..n]);
    }
  }

  lemma MultisetDistinct<T>(s: seq<T>)
    requires forall x :: multiset(s)[x] <= 1
    ensures Distinct(s)
  {
    forall i, j | 0 <= i < j < |s|
      ensures s[i] != s[j]
    {
      var front, back := s[..j], s[j..];
      assert s == front + back;
      assert multiset(s)[s[j]] == multiset(front)[s[j]] + multiset(back)[s[j]];
      assert back[0] == s[j] && back[0] in multiset(back);
      assert front[i] == s[i] && front[i] in multiset(front);
    }
  }

  /** Lists without repeats and with the same members are permutations of each other. */
  lemma SameSetSameMultiset<T>(a: seq<T>, b: seq<T>)
    requires Distinct(a) && Distinct(b)
    requires forall x :: x in a <==> x in b
    ensures multiset(a) == multiset(b)
  {
    DistinctMultiset(a);
    DistinctMultiset(b);
  }

  lemma PermutationDistinct<T>(a: seq<T>, b: seq<T>)
    requires multiset(a) == multiset(b) && Distinct(a)
    ensures Distinct(b)
  {
    DistinctMultiset(a);
    MultisetDistinct(b);
  }

  function RemoveAt<T>(s: seq<T>, i: nat): seq<T>
    requires i < |s|
  {
    s[..i] + s[i + 1..]
  }

  lemma RemoveAtMultiset<T>(s: seq<T>, i: nat)
    requires i < |s|
    ensures multiset(RemoveAt(s, i)) == multiset(s) - multiset{s[i]}
  {
    assert s == s[..i] + ([s[i]] + s[i + 1..]);
    assert multiset(s) == multiset(s[..i]) + (multiset{s[i]} + multiset(s[i + 1..]));
    assert multiset(RemoveAt(s, i)) == multiset(s[..i]) + multiset(s[i + 1..]);
  }

  /** A finite set has a least element. */
  lemma {:induction false} LeastOf<T(!new)>(s: set<T>, le: (T, T) -> bool) returns (least: T)
    requires TotalOrder(le) && s != {}
    ensures least in s && forall x :: x in s ==> le(least, x)
    decreases |s|
  {
    least :| least in s;
    if s != {least} {
      var other := LeastOf(s - {least}, le);
      if le(other, least) {
        least := other;
      }
    }
  }

  /** Element by element, prefixes first. */
  predicate LexLe<T(==)>(le: (T, T) -> bool, a: seq<T>, b: seq<T>) {
    if a == [] then true
    else if b == [] then false
    else if a[0] != b[0] then le(a[0], b[0])
    else LexLe(le, a[1..], b[1..])
  }

  lemma LexReflexive<T>(le: (T, T) -> bool, a: seq<T>)
    ensures LexLe(le, a, a)
  {}

  lemma LexTotal<T(!new)>(le: (T, T) -> bool, a: seq<T>, b: seq<T>)
    requires TotalOrder(le)
    ensures LexLe(le, a, b) || LexLe(le, b, a)
  {}

  lemma {:induction false} LexAntisymmetric<T(!new)>(le: (T, T) -> bool, a: seq<T>, b: seq<T>)
    requires TotalOrder(le) && LexLe(le, a, b) && LexLe(le, b, a)
    ensures a == b
  {
    if a != [] && b != [] {
      assert a[0] == b[0];
      LexAntisymmetric(le, a[1..], b[1..]);
      assert a == [a[0]] + a[1..] && b == [b[0]] + b[1..];
    }
  }

  lemma {:induction false} LexTransitive<T(!new)>(le: (T, T) -> bool, a: seq<T>, b: seq<T>, c: seq<T>)
    requires TotalOrder(le) && LexLe(le, a, b) && LexLe(le, b, c)
    ensures LexLe(le, a, c)
  {
    if a != [] && b != [] && c != [] && a[0] == b[0] == c[0] {
      LexTransitive(le, a[1..], b[1..], c[1..]);
    }
  }

  function LexOrder<T(==)>(le: (T, T) -> bool): (seq<T>, seq<T>) -> bool {
    (a, b) => LexLe(le, a, b)
  }

  lemma LexIsTotal<T(!new)>(le: (T, T) -> bool)
    requires TotalOrder(le)
    ensures TotalOrder(LexOrder(le))
  {
    forall a ensures LexLe(le, a, a) { LexReflexive(le, a); }
    forall a, b ensures LexLe(le, a, b) || LexLe(le, b, a) { LexTotal(le, a, b); }
    forall a, b | LexLe(le, a, b) && LexLe(le, b, a) ensures a == b { LexAntisymmetric(le, a, b); }
    forall a, b, c | LexLe(le, a, b) && LexLe(le, b, c) ensures LexLe(le, a, c) { LexTransitive(le, a, b, c); }
  }

  /** a is a proper beginning of b, or less than b where they first differ. */
  ghost predicate FirstDiffers<T(!new)>(less: (T, T) -> bool, a: seq<T>, b: seq<T>) {
    exists k: nat :: DiffersAt(less, a, b, k)
  }

  ghost predicate DiffersAt<T(!new)>(less: (T, T) -> bool, a: seq<T>, b: seq<T>, k: nat) {
    k <= |a| && k < |b| && a[..k] == b[..k] && (k == |a| || less(a[k], b[k]))
  }

  ghost predicate StrictPart<T(!new)>(le: (T, T) -> bool, less: (T, T) -> bool) {
    forall x, y :: less(x, y) <==> le(x, y) && x != y
  }

  lemma {:induction false} LexExactly<T(!new)>(le: (T, T) -> bool, less: (T, T) -> bool, a: seq<T>, b: seq<T>)
    requires StrictPart(le, less)
    ensures LexLe(le, a, b) <==> a == b || FirstDiffers(less, a, b)
  {
    if a == [] || b == [] || a[0] != b[0] {
      HeadsDiffer(less, a, b);
    } else {
      LexExactly(le, less, a[1..], b[1..]);
      DiffersLater(less, a, b);
      assert a == [a[0]] + a[1..] && b == [b[0]] + b[1..];
    }
  }

  lemma HeadsDiffer<T(!new)>(less: (T, T) -> bool, a: seq<T>, b: seq<T>)
    requires a == [] || b == [] || a[0] != b[0]
    ensures FirstDiffers(less, a, b) <==> b != [] && (a == [] || less(a[0], b[0]))
  {
    if b != [] && (a == [] || less(a[0], b[0])) {
      assert DiffersAt(less, a, b, 0);
    }
  }

  lemma DiffersLater<T(!new)>(less: (T, T) -> bool, a: seq<T>, b: seq<T>)
    requires a != [] && b != [] && a[0] == b[0] && !less(a[0], b[0])
    ensures FirstDiffers(less, a, b) <==> FirstDiffers(less, a[1..], b[1..])
  {
    if k: nat :| DiffersAt(less, a, b, k) {
      assert a[1..][..k - 1] == a[..k][1..] && b[1..][..k - 1] == b[..k][1..];
      assert DiffersAt(less, a[1..], b[1..], k - 1);
    }
    if k: nat :| DiffersAt(less, a[1..], b[1..], k) {
      assert a[..k + 1] == [a[0]] + a[1..][..k] && b[..k + 1] == [b[0]] + b[1..][..k];
      assert DiffersAt(less, a, b, k + 1);
    }
  }

  predicate CharLe(a: char, b: char) { a <= b }

  predicate RealLe(a: real, b: real) { a <= b }

  lemma RealOrder()
    ensures TotalOrder(RealLe)
  {}

  function SortReals(s: seq<real>): (r: seq<real>)
    ensures Sorted(r, RealLe) && multiset(r) == multiset(s) && |r| == |s|
  {
    RealOrder();
    Sort(s, RealLe)
  }

  /** The order of paths and target names: code point by code point. */
  predicate PathLe(a: string, b: string) {
    LexLe(CharLe, a, b)
  }

  /** a comes before b: a proper beginning of it, or the smaller character where they first differ. */
  ghost predicate Before(a: string, b: string) {
    FirstDiffers((x: char, y: char) => x < y, a, b)
  }

  lemma PathLeExactly(a: string, b: string)
    ensures PathLe(a, b) <==> a == b || Before(a, b)
  {
    LexExactly(CharLe, (x: char, y: char) => x < y, a, b);
  }

  lemma PathOrder()
    ensures TotalOrder(PathLe)
  {
    LexIsTotal(CharLe);
    assert forall a, b :: LexOrder(CharLe)(a, b) == PathLe(a, b);
  }

  function SortPaths(s: seq<string>): (r: seq<string>)
    ensures Sorted(r, PathLe)
    ensures multiset(r) == multiset(s)
    ensures |r| == |s|
  {
    PathOrder();
    Sort(s, PathLe)
  }

  lemma SortPathsUnique(s: seq<string>, r: seq<string>)
    requires Sorted(r, PathLe) && multiset(r) == multiset(s)
    ensures r == SortPaths(s)
  {
    PathOrder();
    SortedUnique(r, SortPaths(s), PathLe);
  }
}
