/** Failure-carrying values shared by the scheduler, the builder and the poster. */
module Results {

  datatype Option<+T> = None | Some(value: T)

  datatype Result<+T, +E> = Ok(value: T) | Err(error: E)
}
