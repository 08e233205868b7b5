/** Bounded iteration of a partial step, and what it inherits from one step. */
module Iteration {
  import opened Results
  import opened Sums

  /** At most n steps, stopping at the first state without one. */
  function Iterate<S>(step: S -> Option<S>, s: S, n: nat): S
    decreases n
  {
    if n == 0 then s
    else match step(s)
         case None => s
         case Some(next) => Iterate(step, next, n - 1)
  }

  lemma {:induction false} IterateKeeps<S(!new)>(step: S -> Option<S>, keeps: (S, S) -> bool, s: S, n: nat)
    requires forall a :: keeps(a, a)
    requires forall a, b, c :: keeps(a, b) && keeps(b, c) ==> keeps(a, c)
    requires forall a :: step(a).Some? ==> keeps(a, step(a).value)
    ensures keeps(s, Iterate(step, s, n))
    decreases n
  {
    if n > 0 && step(s).Some? {
      IterateKeeps(step, keeps, step(s).value, n - 1);
    }
  }

  /** If every step costs at least one unit of the measure, n steps that did not stop cost n units. */
  lemma {:induction false} IterateCosts<S(!new)>(step: S -> Option<S>, measure: S -> real, unit: real, s: S, n: nat)
    requires forall a :: step(a).Some? ==> measure(step(a).value) + unit <= measure(a)
    ensures step(Iterate(step, s, n)).Some? ==>
              measure(Iterate(step, s, n)) + Times(n, unit) <= measure(s)
    decreases n
  {
    if n > 0 && step(s).Some? {
      IterateCosts(step, measure, unit, step(s).value, n - 1);
    }
  }

  /** A run that has not stopped after n steps has paid for every one of them. */
  ghost predicate StoppedOrPaid<S>(step: S -> Option<S>, measure: S -> real, unit: real, s: S, n: nat) {
    step(Iterate(step, s, n)).Some? ==> measure(Iterate(step, s, n)) + n as real * unit <= measure(s)
  }

  lemma IterationPays<S(!new)>(step: S -> Option<S>, measure: S -> real, unit: real, s: S, n: nat)
    requires forall a :: step(a).Some? ==> measure(step(a).value) + unit <= measure(a)
    ensures StoppedOrPaid(step, measure, unit, s, n)
  {
    IterateCosts(step, measure, unit, s, n);
    TimesIsProduct(n, unit);
  }

  /** Number of steps after which a non-negative measure must have stopped the iteration. */
  function Enough(start: real, unit: real): (n: nat)
    requires 0.0 < unit
    ensures start < Times(n, unit)
  {
    var n: nat := if start < 0.0 then 1 else (start / unit).Floor + 1;
    TimesIsProduct(n, unit);
    Exceeds(start, unit, n);
    n
  }

  lemma Exceeds(x: real, unit: real, n: nat)
    requires 0.0 < unit && 1 <= n
    requires 0.0 <= x ==> n == (x / unit).Floor + 1
    ensures x < n as real * unit
  {
    assert x / unit * unit == x;
    if 0.0 <= x {
      assert x / unit < n as real;
    } else {
      assert 0.0 < n as real * unit;
    }
  }

  lemma IterationStops<S(!new)>(step: S -> Option<S>, measure: S -> real, unit: real, s: S) returns (n: nat)
    requires 0.0 < unit
    requires forall a :: step(a).Some? ==> measure(step(a).value) + unit <= measure(a)
    requires forall a :: 0.0 <= measure(a)
    ensures step(Iterate(step, s, n)).None?
  {
    n := Enough(measure(s), unit);
    IterateCosts(step, measure, unit, s, n);
  }
}
