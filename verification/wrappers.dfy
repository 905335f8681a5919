/** The optional-value datatype used for the places where the report script
    either produces nothing ("N/A") or stops with a Python exception. */
module Wrappers {

  datatype Option<+T> = None | Some(value: T)
}
