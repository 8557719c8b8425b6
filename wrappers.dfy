/** The optional value used for absent form values and optional ids. */
module Wrappers {

  datatype Option<+T> = None | Some(value: T)
}
