/** Failure-carrying return values, standing in for the exceptions the ledger raises. */
module Results {

  datatype Option<+T> = None | Some(value: T)

  /** Either the value an operation returns or the error it raises. */
  datatype Result<+T, +E> = Success(value: T) | Failure(error: E)
}
