/**
 * The method channel both platforms listen on (`nereus/pose_detection`): the call the Dart side
 * makes, the values its argument dictionary can carry, and the replies.
 */
module Channel {
  import opened Planes
  import opened Pose

  const DetectPoseStream := "detectPoseStream"

  type Int32 = x: int | -0x8000_0000 <= x < 0x8000_0000
  type Int64 = x: int | -0x8000_0000_0000_0000 <= x < 0x8000_0000_0000_0000

  /**
   * A value in the argument dictionary as the channel's codec delivers it:
   * a Dart integer that fits in 32 bits arrives as a 32-bit integer, a
   * larger one as a 64-bit integer, a byte list as bytes.
   */
  datatype Value = IntValue(i: Int32) | LongValue(l: Int64) | BytesValue(bytes: seq<Byte>) | NullValue | OtherValue

  /** The call's arguments: none, a dictionary keyed by name, or something else. */
  datatype Arguments = NoArguments | Dictionary(entries: map<string, Value>) | OtherArguments

  datatype MethodCall = MethodCall(name: string, arguments: Arguments)

  /** The handlers' error codes, sent to the Dart side as `INVALID_ARGS`, `NO_PLANES` and `POSE_ERROR`. */
  datatype ErrorCode = InvalidArgs | NoPlanes | PoseError

  /**
   * A reply: the points of the first pose, an error with one of the
   * handler's codes, "not implemented", or the channel's own error reply
   * for an exception that escapes the handler.
   */
  datatype Reply = Success(points: seq<Point>) | Error(code: ErrorCode) | NotImplemented | Uncaught
}
