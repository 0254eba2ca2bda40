/** Optional values (a JavaScript `undefined`) and results with an error path (a thrown error or an error reply). */
module Wrappers {

  datatype Option<+T> = None | Some(value: T)

  datatype Result<+T, +E> = Ok(value: T) | Err(error: E)
}
