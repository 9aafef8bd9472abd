/** Failure-compatible result types. */
module Results {

  datatype Option<+T> = None | Some(value: T)

  /** `Err` stands for a thrown exception. */
  datatype Result<+T, +E> = Ok(value: T) | Err(error: E)
}
