/** The Option type used for parses that can fail and headers that can be absent. */
module Wrappers {
  datatype Option<+T> = None | Some(value: T)
}
