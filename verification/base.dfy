/** Option and Result, the two wrappers the rest of the model returns. */
module Base {

  datatype Option<+T> = None | Some(value: T)

  /** A value, or the error a promise of the extension would reject with. */
  datatype Result<+T, +E> = Ok(value: T) | Err(error: E)
}
