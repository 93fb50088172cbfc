/** Results and the exceptions of the original, as values. */
module Outcome {
  datatype Option<+T> = None | Some(value: T)

  datatype Error =
    | ValueError
    | OverflowError
    | StructError
    | InvalidPacket
    | InvalidTag
    | KeyError
    | TimeoutError
    | OSError

  datatype Result<+T> = Ok(value: T) | Err(error: Error)
}
