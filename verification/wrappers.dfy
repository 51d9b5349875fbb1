/** The optional value used for "no store statement is issued". */
module Wrappers {
  datatype Option<+T> = None | Some(value: T)
}
