/** The optional values and results shared by every model in this project. */
module Options {

  /** A nullable column or an optional field. */
  datatype Option<+T> = None | Some(value: T)

  /** The answer of an operation that may be refused with an error. */
  datatype Result<+T, +E> = Ok(value: T) | Err(error: E)
}
