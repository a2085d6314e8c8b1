/** The optional value the script returns as `None` or a value. */
module Wrappers {

  datatype Option<+T> = None | Some(value: T)
}
