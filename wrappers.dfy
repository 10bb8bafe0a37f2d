/** Failure-carrying values shared by every module, and the file-system view. */
module Wrappers {

  datatype Option<+T> = None | Some(value: T)

  /** The value of a Go function returning `(T, error)`: either a value or an error. */
  datatype Result<+T, +E> = Ok(value: T) | Err(error: E)

  /** The project directory as seen by a generator: file path to file text.
      A path that is not a key is a file that does not exist. */
  type FileSystem = map<string, string>
}
