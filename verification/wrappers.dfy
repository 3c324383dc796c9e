/** The optional value used where the source returns `None` or closes a channel. */
module Wrappers {

  datatype Option<+T> = None | Some(value: T)
}
