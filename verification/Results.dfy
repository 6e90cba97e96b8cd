/** Rust's `Result`, with and without a value. */
module Results {
  datatype Result<+T> = Ok(value: T) | Err(message: string)

  datatype Outcome = Pass | Fail(message: string)
}
