/** Stand-in for JavaScript's `null`: a session field that may hold no store. */
module Wrappers {
  datatype Option<+T> = None | Some(value: T)
}
