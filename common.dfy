/** Small value wrappers shared by the other modules. */
module Common {

  /** An optional value: `None` stands for JavaScript's `undefined` or `NaN`. */
  datatype Option<+T> = None | Some(value: T)

  /** The outcome of an operation that can throw. */
  datatype Result<+T, +E> = Ok(value: T) | Err(error: E)
}
