/** The two failure-compatible datatypes the model uses for the source's nullable results and thrown exceptions. */
module Options {

  datatype Option<+T> = None | Some(value: T)

  datatype Result<+T, +E> = Ok(value: T) | Err(error: E)
}
