/** The Option datatype used wherever the script works with a value that may be null. */
module Wrappers {

  /** `None` stands for JavaScript's `null` (or a falsy object reference). */
  datatype Option<+T> = None | Some(value: T)
}
