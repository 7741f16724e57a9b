/** The optional value that stands for the handlers' early returns. */
module Wrappers {
  datatype Option<T> = None | Some(value: T)
}
