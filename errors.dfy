/** Errors of the codec and the two wrappers every operation returns. */
module Errors {

  /** The errors a codec operation can return.  `UnsupportedType` is the
      library's only own error value (`ErrorUnsupportedType`); the others
      arrive from the JSON layer or from a host's own codec. */
  datatype Error =
    | UnsupportedType           // "GeoJSON type is not supported"
    | Malformed                 // the JSON tree has the wrong shape for its target
    | Host(reason: string)      // raised by a host-supplied properties or member codec
    | Marshaler(cause: Error)   // a member's encoder failed; the JSON layer wraps its error

  /** The text `Error()` returns for the library's own error value
      (`ErrorUnsupportedType`, error.go:24); no other operation needs it. */
  function Message(e: Error): string
    requires e.UnsupportedType?
  {
    "GeoJSON type is not supported"
  }

  datatype Option<+T> = None | Some(value: T)

  datatype Result<+T> = Ok(value: T) | Err(error: Error)
}
