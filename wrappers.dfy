/** A value that JavaScript may leave `null` or `undefined`. */
module Wrappers {

  /** `None` stands for `null` and `undefined`, `Some(v)` for a present value. */
  datatype Option<+T> = None | Some(value: T)
}
