/** Small value types shared by the import model. */
module Prelude {

  /** A value that may be absent: PHP's `null` next to a string. */
  datatype Option<+T> = None | Some(value: T)

  /** Whether no two positions of `s` hold the same element. */
  predicate Distinct<T(==)>(s: seq<T>) {
    forall i, j :: 0 <= i < j < |s| ==> s[i] != s[j]
  }
}
