// Result and option values shared by every component of the model.
module Results {

  datatype Option<+T> = None | Some(value: T)

  // The outcome of a fallible call: Rust's `Result`.
  datatype Result<+T, +E> = Ok(value: T) | Err(error: E)
}
