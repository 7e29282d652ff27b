/** Optional results and results with an error message, as the source's
    `Option<Self>` and `Result<Self, String>`. */
module Wrappers {

  datatype Option<+T> = None | Some(value: T)

  datatype Result<+T> = Ok(value: T) | Err(msg: string)
}
