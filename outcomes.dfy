/** Values that stand for Python's optional results and raised exceptions. */
module Outcomes {

  datatype Option<+T> = None | Some(value: T)

  /** A computation that either returns a value or raises an exception. */
  datatype Result<+T, +E> = Success(value: T) | Failure(error: E)

  /** The Python exceptions this model represents. */
  datatype PyError =
    | IndexError          // `parts[1]` on a one-element list, `images[0]` on an empty one
    | ValueError          // `int(s)` on a string that is not a decimal number
    | ZeroDivisionError   // `frame_count % 0`
}
