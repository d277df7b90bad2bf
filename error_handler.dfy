/** The server's last error-handling middleware: it picks the HTTP status and
    the JSON message sent back for an error that reached it. */
module ErrorHandler {
  import opened JsBase

  const LimitFileSize := "LIMIT_FILE_SIZE"
  const FileTooLarge := "File too large. Maximum size is 5MB."
  const OnlyImageFiles := "Only image files are allowed!"
  const SomethingWrong := "Something went wrong!"

  /** An error passed to `next`: one raised by multer, with its code and
      message, or any other value, whose `message` may be missing. */
  datatype Failure =
    | MulterError(code: string, message: string)
    | PlainError(text: Option<string>)

  /** `error.message`. */
  function MessageOf(e: Failure): Option<string>
  {
    match e
    case MulterError(_, m) => Some(m)
    case PlainError(t) => t
  }

  /** The status and the `{ success, message }` body sent back. */
  datatype Response = Response(status: nat, success: bool, message: string)

  /** The classifier. Only multer's size-limit error is special among multer
      errors; any other error is matched on its exact message, and everything
      else is a 500 with a fixed text. */
  function Classify(e: Failure): (r: Response)
    ensures !r.success && (r.status == 400 || r.status == 500)
    ensures r == Response(400, false, FileTooLarge) <==> e.MulterError? && e.code == LimitFileSize
    ensures r == Response(400, false, OnlyImageFiles) <==>
      !(e.MulterError? && e.code == LimitFileSize) && MessageOf(e) == Some(OnlyImageFiles)
    ensures r == Response(500, false, SomethingWrong) <==>
      !(e.MulterError? && e.code == LimitFileSize) && MessageOf(e) != Some(OnlyImageFiles)
  {
    if e.MulterError? && e.code == LimitFileSize then Response(400, false, FileTooLarge)
    else if MessageOf(e) == Some(OnlyImageFiles) then Response(400, false, OnlyImageFiles)
    else Response(500, false, SomethingWrong)
  }

  /** A multer error with any other code is treated like a plain error with
      the same message. */
  lemma OtherMulterCodesFallThrough(code: string, message: string)
    requires code != LimitFileSize
    ensures Classify(MulterError(code, message)) == Classify(PlainError(Some(message)))
  {
  }

  /** The size-limit code wins over the message, and the server's own message
      is what the client sees then. */
  lemma SizeLimitIgnoresMessage(message: string)
    ensures Classify(MulterError(LimitFileSize, message)).message == FileTooLarge
  {
  }

  /** The message test is exact: no trimming, no case folding, no substring. */
  lemma MessageMatchIsExact()
    ensures Classify(PlainError(Some("Only image files are allowed!"))).status == 400
    ensures Classify(PlainError(Some("Only image files are allowed! "))).status == 500
    ensures Classify(PlainError(Some("only image files are allowed!"))).status == 500
    ensures Classify(PlainError(None)).status == 500
  {
  }
}
