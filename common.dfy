/// Constants, the fatal-error conditions of the server and the two small
/// wrapper types shared by every other module.
module Common {

  /** Product name and version sent in the `Server` header. */
  const SERVER_NAME: string := "sysproHTTP"
  const SERVER_VERSION: string := "1.0"

  /** The minor version the status line always carries, whatever the request said. */
  const HTTP_MINOR_VERSION: nat := 0

  /** Size of the buffer `file_response` copies a file through. */
  const BLOCK_BUF_SIZE: nat := 1024

  /** Size of the line buffer handed to `fgets`; a line holds at most one octet less. */
  const LINE_BUF_SIZE: nat := 4096

  /** Largest request body the server accepts (1 MiB). */
  const MAX_REQUEST_BODY_LENGTH: nat := 1024 * 1024

  datatype Option<+T> = None | Some(value: T)

  /** Every condition on which the server calls `err_log` and exits.
      The `shown` fields hold the text the diagnostic prints. */
  datatype Fatal =
    | NoRequestLine
      /** The request line is malformed; `field` is the 1, 2 or 3 of the diagnostic. */
    | RequestLineSyntax(field: nat, shown: string)
    | HeaderReadFailed
    | HeaderSyntax(shown: string)
    | NegativeContentLength
    | BodyTooLarge
    | BodyReadFailed
    | FileOpenFailed(path: string)

  /** Either a value or the fatal condition that ended the process. */
  datatype Result<+T> = Ok(value: T) | Fail(error: Fatal) {
    predicate IsFailure() { Fail? }

    function PropagateFailure<U>(): Result<U>
      requires Fail?
    {
      Fail(error)
    }

    function Extract(): T
      requires Ok?
    {
      value
    }
  }
}
