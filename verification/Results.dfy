/** Success or a raised error. */
module Results {
  datatype Result<+T> = Ok(value: T) | Err
  datatype Option<+T> = None | Some(value: T)
}
