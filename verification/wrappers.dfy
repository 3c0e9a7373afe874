/** The two wrappers the model uses: `Option` for the source's nullable
    references (`Coordinate?`, `Ship?`, `Game?`) and `Result` for its
    success-or-error-message returns. */
module Wrappers {

  datatype Option<+T> = None | Some(value: T)

  datatype Result<+T, +E> = Success(value: T) | Failure(error: E)
}
