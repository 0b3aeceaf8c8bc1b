/** Small failure-carrying datatypes shared by the model. */
module Wrappers {

  datatype Option<+T> = None | Some(value: T) {
    function GetOr(default: T): T {
      match this
      case Some(v) => v
      case None => default
    }
  }

  /** The Python exceptions the modelled code raises and does not catch. */
  datatype PyError =
    | KeyError(key: string)
    | IndexError
    | ValueError(text: string)
    | TypeError(text: string)
    | RuntimeError(text: string)

  datatype Result<+T> = Ok(value: T) | Err(error: PyError)
}
