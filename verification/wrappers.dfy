/** The failure-or-value type used for construction that may be refused. */
module Wrappers {

  datatype Option<+T> = None | Some(value: T)
}
