/** The optional value used throughout the model for "found / not found" and
    for "parsed / raised". */
module Wrappers {

  datatype Option<+T> = None | Some(value: T)
}
