/** The exceptions the core raises or lets through: Django's, Python's built-in
    ones, the failures of external tools, and the application's own wrappers
    (api/apps/exceptions.py), each of which keeps the exception it wraps. */
module Errors {
  /** The message both services raise when there is no Settings row. */
  const SETTINGS_NOT_FOUND := "Settings not found"

  datatype Error =
    | ValidationError(message: string)
      // django.http.Http404, raised by get_object_or_404
    | NotFound
      // a database constraint (unique, not null, foreign key) was violated
    | IntegrityError
      // open(path, 'rb') on a path that does not exist
    | FileNotFound(path: string)
    | JsonDecodeError
    | KeyError(key: string)
    | ValueError(message: string)
      // subscripting or calling with a value of the wrong type
    | TypeError
      // an exception raised by an external tool or client library
    | ExternalError(tool: string, message: string)
    | VideoProcessingError(cause: Error)
    | TranscriptionError(cause: Error)
    | SubtitleError(cause: Error)
}
