/** Sums of a weight over a list, and repeated addition. */
module Sums {
  import opened Order

  function SumOf<T(==)>(s: seq<T>, f: T -> real): real {
    if s == [] then 0.0 else f(s[0]) + SumOf(s[1..], f)
  }

  lemma {:induction false} SumAppend<T>(a: seq<T>, b: seq<T>, f: T -> real)
    ensures SumOf(a + b, f) == SumOf(a, f) + SumOf(b, f)
  {
    if a == [] {
      assert a + b == b;
    } else {
      assert (a + b)[1..] == a[1..] + b;
      SumAppend(a[1..], b, f);
    }
  }

  lemma SumSingleton<T>(x: T, f: T -> real)
    ensures SumOf([x], f) == f(x)
  {
    assert [x][1..] == [];
  }

  lemma SumRemove<T>(s: seq<T>, i: nat, f: T -> real)
    requires i < |s|
    ensures SumOf(s, f) == f(s[i]) + SumOf(RemoveAt(s, i), f)
  {
    var front, back := s[..i], s[i + 1..];
    assert s == front + ([s[i]] + back);
    SumAppend(front, [s[i]] + back, f);
    SumAppend([s[i]], back, f);
    SumSingleton(s[i], f);
    assert RemoveAt(s, i) == front + back;
    SumAppend(front, back, f);
  }

  /** A sum ignores the order of its terms. */
  lemma {:induction false} SumPermutation<T>(a: seq<T>, b: seq<T>, f: T -> real)
    requires multiset(a) == multiset(b)
    ensures SumOf(a, f) == SumOf(b, f)
  {
    SameMembers(a, b);
    if a != [] {
      assert a[0] in b;
      var i :| 0 <= i < |b| && b[i] == a[0];
      RemoveAtMultiset(b, i);
      RemoveAtMultiset(a, 0);
      assert RemoveAt(a, 0) == a[1..];
      SumPermutation(a[1..], RemoveAt(b, i), f);
      SumRemove(b, i, f);
    }
  }

  lemma {:induction false} SumAgrees<T>(s: seq<T>, f: T -> real, g: T -> real)
    requires forall x :: x in s ==> f(x) == g(x)
    ensures SumOf(s, f) == SumOf(s, g)
  {
    if s != [] {
      assert s[0] in s;
      assert forall x :: x in s[1..] ==> x in s;
      SumAgrees(s[1..], f, g);
    }
  }

  lemma {:induction false} SumNonNegative<T>(s: seq<T>, f: T -> real)
    requires forall x :: x in s ==> 0.0 <= f(x)
    ensures 0.0 <= SumOf(s, f)
  {
    if s != [] {
      assert s[0] in s;
      assert forall x :: x in s[1..] ==> x in s;
      SumNonNegative(s[1..], f);
    }
  }

  /** m copies of x, added up; TimesIsProduct gives the product form. */
  function Times(m: nat, x: real): real {
    if m == 0 then 0.0 else Times(m - 1, x) + x
  }

  lemma {:induction false} TimesIsProduct(m: nat, x: real)
    ensures Times(m, x) == m as real * x
  {
    if m > 0 {
      TimesIsProduct(m - 1, x);
      assert (m - 1) as real * x == m as real * x - x;
    }
  }

  lemma {:induction false} TimesAdd(m: nat, x: real, y: real)
    ensures Times(m, x + y) == Times(m, x) + Times(m, y)
  {
    if m > 0 { TimesAdd(m - 1, x, y); }
  }

  lemma {:induction false} TimesMonotone(m: nat, x: real, y: real)
    requires x <= y
    ensures Times(m, x) <= Times(m, y)
    ensures 0 < m ==> y - x <= Times(m, y) - Times(m, x)
  {
    if m > 0 { TimesMonotone(m - 1, x, y); }
  }

  lemma {:induction false} TimesAtLeast(m: nat, x: real)
    requires 0 < m && 0.0 <= x
    ensures x <= Times(m, x) && Times(m, 0.0) == 0.0
  {
    if m > 1 { TimesAtLeast(m - 1, x); }
  }
}
