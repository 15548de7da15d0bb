/** Small failure-carrying datatypes shared by the cleaner's modules. */
module Common {

  datatype Option<+T> = None | Some(value: T)

  /** The outcome of a step that either yields a value or fails with an error. */
  datatype Result<+T, +E> = Ok(value: T) | Err(error: E)
}
