/** What several parts of the model share. */
module Basics {
  const PAGE := 4096
  const U32 := 0x1_0000_0000

  datatype Opt<T> = None | Some(value: T)

  /** No element twice. */
  predicate Distinct<T(==)>(s: seq<T>) {
    forall i, j :: 0 <= i < j < |s| ==> s[i] != s[j]
  }
}
