/** The two result shapes the model uses for the source's (value, error) pairs. */
module Options {
  datatype Option<+T> = None | Some(value: T)

  datatype Result<+T> = Ok(value: T) | Err
}
