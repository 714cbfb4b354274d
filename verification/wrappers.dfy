/** What an operation that may fail answers. */
module Wrappers {
  datatype Option<+T> = None | Some(value: T)
}
