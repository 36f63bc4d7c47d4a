/**
  Option, the stand-in for Python's None, and the outcome of a call that may raise.
  Python exceptions are reduced to the two classes the server's connection handler
  tells apart: an OSError (a reset connection, a missing file) ends the connection
  silently, any other Exception ends it after an error message.
 */
module Wrappers {

  datatype Option<+T> = None | Some(value: T)

  datatype Raised = OsError | OtherError

  datatype Result<+T> = Ok(value: T) | Err(error: Raised)

}
