/** Small failure-carrying datatypes shared by the other modules. */
module Optional {

  /** A value that may be absent. */
  datatype Option<+T> = None | Some(value: T)

  /** Either a computed value or the exception that escaped instead. */
  datatype Result<+T, +E> = Ok(value: T) | Err(error: E)
}
