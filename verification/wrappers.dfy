/** The optional value used wherever the modelled code may produce nothing. */
module Wrappers {

  datatype Option<+T> = None | Some(value: T)
}
