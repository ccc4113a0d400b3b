/** The optional value used where the source returns `null` or `undefined`. */
module Wrappers {

  datatype Option<+T> = None | Some(value: T)

}
