/** The optional-value datatype used for absent JSON keys, absent font sizes
    and library calls that may fail. */
module Wrappers {
  datatype Option<+T> = None | Some(value: T)
}
