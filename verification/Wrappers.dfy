/** Optional and failing results, and a file as its reader finds it. */
module Wrappers {
  datatype Option<+T> = None | Some(value: T)

  datatype Result<+T, +E> = Ok(value: T) | Err(error: E)

  datatype File = Absent | Unreadable | Holds(text: string)
}
