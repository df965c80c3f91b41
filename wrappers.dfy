/** The optional value used where the voice loop has `None` or a missing value. */
module Wrappers {

  datatype Option<+T> = None | Some(value: T)
}
