/** A marker for proofs that keep a heavy definition closed: a predicate wrapped in a quantifier over marks is looked at
    only where a mark is asserted. */
module Markers {
  ghost predicate Opened(mark: int) { true }
}
