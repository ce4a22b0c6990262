/** The usual optional-value datatype, used for "no match" and "no timer". */
module Wrappers {
  datatype Option<+T> = None | Some(value: T)
}
