/** Values shared by the API routes and the browser client. */
module Common {

  /** One octet of a file's content. */
  newtype byte = x: int | 0 <= x < 256

  /** A value that may be absent (JavaScript `undefined`/`null`). */
  datatype Option<+T> = None | Some(value: T) {
    /** The `??` operator: the value, or `default` when absent. */
    function GetOr(default: T): (r: T)
      ensures Some? ==> r == value
      ensures None? ==> r == default
    {
      match this
      case Some(v) => v
      case None => default
    }
  }

  /** What an external collaborator (the speech-to-text or completion API, the media
      transcoder, the HTTP API seen from the browser) answered: a value, or a
      rejected promise. */
  datatype ExtResult<+T> = Ok(value: T) | Err

  /** Why a handler ended in its generic 500 reply. */
  datatype Failure =
    | InvalidInput   // the zod schema threw
    | NotFound       // findUniqueOrThrow found no row
    | ExternalError  // the external API rejected
    | WriteError     // streaming the upload to disk failed
    | Conflict       // the database refused the new row (duplicate id)
}
