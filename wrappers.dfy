/** The absent-or-present value the page passes around as `undefined`/`null` or a value. */
module Wrappers {
  datatype Option<+T> = None | Some(value: T)
}
