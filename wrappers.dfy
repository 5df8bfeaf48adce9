/** The optional value used wherever the source returns `null`, `undefined` or throws. */
module Wrappers {
  datatype Option<+T> = None | Some(value: T)
}
