/** The optional value used wherever the source returns `None` or draws nothing. */
module Wrappers {

  datatype Option<T> = None | Some(value: T)
}
