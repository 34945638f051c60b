/** An optional value: JavaScript's `null` or a present value. */
module Wrappers {
  datatype Option<+T> = None | Some(value: T)
}
