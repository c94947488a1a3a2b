/** Small shared datatypes used across the model. */
module Base {

  /** JavaScript's "value or undefined/null". */
  datatype Option<+T> = None | Some(value: T)

  /** A value, or the error a JavaScript function would have thrown. */
  datatype Result<+T, +E> = Ok(value: T) | Err(error: E)

}
