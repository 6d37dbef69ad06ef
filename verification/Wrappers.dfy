/** Results that may be missing or refused. */
module Wrappers {

  datatype Option<+T> = None | Some(value: T)

  datatype Result<+T> = Ok(value: T) | Refused(reason: string)
}
