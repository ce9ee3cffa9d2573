/** The optional value used for quantities that are not always defined (a rate, a report cell). */
module Wrappers {
  datatype Option<+T> = None | Some(value: T)
}
