/** A locale-aware comparison of strings: a total preorder, which need not tell all strings apart. */
module Collation {

  /** `le(a, b)` is `a.localeCompare(b) <= 0`. */
  type Order = (string, string) -> bool

  /** Distinct strings never compare equal. */
  ghost predicate NoTies(le: Order) {
    forall a, b :: le(a, b) && le(b, a) ==> a == b
  }
}
