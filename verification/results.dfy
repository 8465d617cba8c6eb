/** Failure-carrying results, standing in for the exceptions of the source programs. */
module Results {

  datatype Option<+T> = None | Some(value: T)

  /** `Err` is a raised exception; `Ok` a normal return. */
  datatype Result<+T, +E> = Ok(value: T) | Err(error: E)
}
