/** Optional values, for lookups that may find nothing. */
module Wrappers {

  datatype Option<T> = None | Some(value: T)

  /** No element occurs twice in `xs`. */
  predicate Distinct<T(==)>(xs: seq<T>)
  {
    forall i, j :: 0 <= i < j < |xs| ==> xs[i] != xs[j]
  }
}
