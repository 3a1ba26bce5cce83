/** Null-able values, results and the exceptions the review pipeline can raise. */
module Outcomes {

  /** A Java reference that may be null: `None` stands for null. */
  datatype Option<+T> = None | Some(value: T)

  /** A call that either returns a value or throws. */
  datatype Result<+T, +E> = Success(value: T) | Failure(error: E)

  /** The exceptions of the pipeline. All but `IllegalState` are
      `IOException`s; their Java message texts are kept as structure. */
  datatype Error =
    | Io(reason: string)                            // thrown by a collaborator: network, file system, JSON writer
    | LlmRequestFailed(code: int, body: string)     // "LLM Request failed: <code> - <body>"
    | GeminiJsonUnreadable                          // "Failed to parse Gemini JSON"
    | UnexpectedCode(code: int)                     // "Unexpected code <response>"
    | IllegalState(reason: string)                  // an unchecked IllegalStateException
  {
    predicate IsIOException() {
      !IllegalState?
    }
  }
}
