/** The optional value used for entity references and slot look-ups. */
module Wrappers {

  datatype Option<+T> = None | Some(value: T)
}
