/** Option and Result, used for the values the exporter may omit and for
    the exceptions that abort an export. */
module Wrappers {

  datatype Option<+T> = None | Some(value: T)

  datatype Result<+R, +E> = Ok(value: R) | Err(error: E)
}
