/** Option and Result, the failure-carrying datatypes the rest of the model uses
    for the source's `Option<T>`, nullable values, and thrown errors. */
module Wrappers {

  datatype Option<+T> = None | Some(value: T)

  datatype Result<+T> = Ok(value: T) | Err(message: string)
}
