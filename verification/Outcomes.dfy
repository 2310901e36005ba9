/** Result and option types shared by every component (core/result.h).
    The diagnostic text that travels with each error is not modelled. */
module Outcomes {
  datatype Option<+T> = None | Some(value: T)

  datatype ErrorCode =
    | InvalidArgument
    | UnsupportedFormat
    | FileNotFound
    | IoError
    | InvalidInstallation
    | BackendUnavailable

  datatype Result<+T> = Success(value: T) | Failure(error: ErrorCode)
}
