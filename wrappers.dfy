/** The optional value used for JavaScript's `null` / missing entries. */
module Wrappers {
  datatype Option<+T> = None | Some(value: T)
}
