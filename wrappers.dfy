/** The Option datatype used for Python values that may be missing (a dict key that is
    absent, a rolling mean that is still undefined). */
module Wrappers {

  datatype Option<+T> = None | Some(value: T)
}
