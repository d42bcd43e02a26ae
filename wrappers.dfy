/** The optional value used wherever the source either yields a value or gives up. */
module Wrappers {

  datatype Option<+T> = None | Some(value: T)
}
