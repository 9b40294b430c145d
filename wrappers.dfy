/** Small failure-carrying datatypes shared by the rest of the model. */
module Wrappers {

  /** An optional value: Rust's `Option<T>`. */
  datatype Option<+T> = None | Some(value: T)

  /** A value or an error: Rust's `Result<T, E>`. */
  datatype Result<+T, +E> = Success(value: T) | Failure(error: E)

  /** The errors the player's library operations report (each an `anyhow` error in the program). */
  datatype Error =
    | DirectoryNotFound       // "Directory does not exist"
    | InvalidDirectoryIndex   // "Invalid directory index"
    | WalkFailed              // an entry of the directory walk could not be read
}
