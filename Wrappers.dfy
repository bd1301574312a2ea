/** The optional value the rest of the model passes around: Python's `None` or a value. */
module Wrappers {
  datatype Option<T> = None | Some(value: T)
}
