/** The optional-value wrapper used across the model. */
module Wrappers {

  /** A value that may be absent: Python's `Optional[T]` and the outcome of a step that may fail. */
  datatype Option<+T> = None | Some(value: T)
}
