/** Option, used where the program stores or returns a value that may be absent. */
module Wrappers {
  datatype Option<+T> = None | Some(value: T)
}
