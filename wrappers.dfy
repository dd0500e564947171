/** The optional value used wherever the application reads a nullable or missing value. */
module Wrappers {

  datatype Option<+T> = None | Some(value: T)
}
