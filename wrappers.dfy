/** The optional value used wherever the PHP code may produce `null`
    or may raise an Error instead of a value. */
module Wrappers {

  datatype Option<+T> = None | Some(value: T)
}
