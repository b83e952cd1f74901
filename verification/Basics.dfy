/** What several models share. */
module Basics {

  datatype Option<+T> = None | Some(value: T)

  /** Nanoseconds. */
  type Time = int
}
