/** Option and Result, and the errors the argument validators report. */
module Wrappers {

  datatype Option<+T> = None | Some(value: T)

  /** Why a command-line argument was refused. Each error carries the raw argument. */
  datatype Error =
    | InvalidKeyValue(input: string)   // a body argument with no '='
    | InvalidUrl(input: string)        // a URL the URL parser refused

  datatype Result<+T> = Ok(value: T) | Err(error: Error)
}
