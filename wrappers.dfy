/** A value that may be missing: a DOM query that found nothing, a number that did not parse. */
module Wrappers {
  datatype Option<T> = None | Some(value: T)
}
