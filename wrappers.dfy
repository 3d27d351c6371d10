/** Option and Result types shared by the model. A thrown .NET exception is
    modelled as `Err` carrying the exception's message. */
module Wrappers {

  datatype Option<+T> = None | Some(value: T)

  datatype Result<+T> = Ok(value: T) | Err(error: string)
}
