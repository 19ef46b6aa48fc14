/** The optional value used for answers the user may cancel. */
module Wrappers {

  datatype Option<+T> = None | Some(value: T)
}
