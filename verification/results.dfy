/** Failure-carrying wrappers used by every service operation. */
module Results {

  /** A value that may be absent: the model of a nullable ORM lookup. */
  datatype Option<+T> = None | Some(value: T)

  /** Either a computed value or the error the service throws. */
  datatype Result<+T, +E> = Ok(value: T) | Err(error: E)
}
