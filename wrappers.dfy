/** An optional value: JavaScript's `undefined` for a missing field or index. */
module Wrappers {
  datatype Option<+T> = None | Some(value: T)
}
