/** Failure-carrying values shared by the route planner modules. */
module Results {

  /** A value that may be absent, as for an optional argument. */
  datatype Option<+T> = None | Some(value: T)

  /** Either a computed value or the error that prevented it. */
  datatype Result<+T, +E> = Success(value: T) | Failure(error: E)
}
