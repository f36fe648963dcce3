/** The optional-value type used where the Swift source has `T?`. */
module Wrappers {

  datatype Option<+T> = None | Some(value: T)
}
