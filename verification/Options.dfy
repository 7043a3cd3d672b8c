/** Values that may be missing and results that may be errors. */
module Options {
  datatype Option<+T> = None | Some(value: T)
  datatype Result<+T> = Ok(value: T) | Err
}
