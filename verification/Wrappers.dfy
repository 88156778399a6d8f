/** Result types shared by the model. */
module Wrappers {

  datatype Option<+T> = None | Some(value: T)

  /** What a Go call can do: return normally, return an error, or panic. */
  datatype Outcome<+T> = Ok(value: T) | Error | Panic
}
