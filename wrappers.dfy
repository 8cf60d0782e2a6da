/** The result of polling a queue that may be empty (Java's `null`). */
module Wrappers {
  datatype Option<+T> = None | Some(value: T)
}
