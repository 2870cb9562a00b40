/** The records the verticles exchange over the event bus, as the game and leaderboard
    logic sees them, with strings as strings. Each record has a byte-level twin in its
    codec module, with the same fields in the same order and each string as the bytes
    `getBytes()` yields: `GameStartRequestCodec.GameStartRequest`,
    `GameStartResponseCodec.GameStartResponse`, `HeartbeatRequestCodec.HeartbeatRequest`,
    `GameSubmitRequestCodec.GameSubmitRequest` and `ScoreSubmissionCodec.ScoreSubmission`
    (whose username may be null). */
module Messages {
  import opened JavaInts
  import opened Wrappers
  import opened JavaStrings

  /** A Java `String`: its `length()`, in UTF-16 code units, is an `int`. */
  type JString = s: string | Length(s) <= Int32Max

  /** `username` is null when the client sent none. */
  datatype GameStartRequest = GameStartRequest(username: Option<string>)

  datatype GameStartResponse = GameStartResponse(
    sessionId: string, commands: seq<string>, startTime: int, signature: string)

  datatype HeartbeatRequest = HeartbeatRequest(sessionId: string, progress: Int32)

  datatype GameSubmitRequest = GameSubmitRequest(
    sessionId: string, username: string, typedText: JString, finishTime: int, signature: string)

  datatype ScoreSubmission = ScoreSubmission(username: string, wpm: Int32, maxCombo: Int32, timestamp: int)
}
