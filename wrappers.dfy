/** The usual optional-value datatype, for lookups that can fail. */
module Wrappers {

  datatype Option<+T> = None | Some(value: T)
}
