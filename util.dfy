/** Small failure-carrying datatypes shared by the model. */
module Util {

  /** A value that may be missing (Python's `None` for an argument or a lookup). */
  datatype Option<T> = None | Some(value: T)

  /** A value, or the exception the source raises instead of returning one. */
  datatype Result<T, E> = Ok(value: T) | Err(error: E)

  /** The outcome of an operation that returns nothing but may raise. */
  datatype Outcome<E> = Pass | Fail(error: E)

  /** No element occurs twice (dimension names of an array, keys of a dict). */
  predicate Distinct<T(==)>(s: seq<T>)
  {
    forall i, j :: 0 <= i < j < |s| ==> s[i] != s[j]
  }
}
