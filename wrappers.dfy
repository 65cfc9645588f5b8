/** Failure-carrying values shared by the whole model: a missing value (the
    source's `null`) and a result that is either a value or an error. */
module Wrappers {

  datatype Option<+T> = None | Some(value: T)

  datatype Result<+R, +E> = Success(value: R) | Failure(error: E)

  /** A text field a handler accepts (`!!field` in JavaScript): present and
      not the empty string. */
  predicate Present(f: Option<string>) { f.Some? && f.value != "" }
}
