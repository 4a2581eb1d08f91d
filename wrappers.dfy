/** Option and Result, used where the Python code returns None or raises. */
module Wrappers {

  datatype Option<+T> = None | Some(value: T)

  datatype Result<+T, +E> = Success(value: T) | Failure(error: E)

  /** The exceptions the modelled code can raise on degenerate input. */
  datatype Fault =
    | ZeroDivision   // Python's ZeroDivisionError on a float division by zero
    | NotAPolygon    // shapely returned a line or a point where a polygon was expected
    | EmptyResources // ValueError("resources must not be empty")
    | ReleaseUnlocked // RuntimeError from releasing a threading.Lock that is not held
}
