/** The optional-value type used across the model (a C function that returns
    NULL or an index becomes a function returning an Option). */
module Wrappers {
  datatype Option<+T> = None | Some(value: T)
}
