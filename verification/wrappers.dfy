/** The conventional Some/None datatype, used where the source yields `null`. */
module Wrappers {

  datatype Option<+T> = None | Some(value: T)
}
