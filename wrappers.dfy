/** Option, used for JavaScript's `undefined`/absent values and for NaN. */
module Wrappers {
  datatype Option<+T> = None | Some(value: T)
}
