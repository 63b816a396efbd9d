/**
 * The iOS side (AppDelegate.swift): the app delegate's method-channel handler
 * validates the request's arguments and applies their defaults, sets the
 * landmarker up on first use, builds an NV12 pixel buffer from the frame's
 * planes, submits the frame and replies with the cached result; the
 * landmarker's delegate callbacks fill that cache.
 */
module Ios {
  import opened Wrappers
  import opened Planes
  import opened Nv12
  import opened Pose
  import opened Channel

  // ---------------------------------------------------------------------------
  // Reading the arguments

  /** `entries[key] as? Int`: any integer the channel delivers, whatever its width. */
  function AsInt(entries: map<string, Value>, key: string): (r: Option<int>)
    ensures r.Some? <==> key in entries && (entries[key].IntValue? || entries[key].LongValue?)
    ensures key in entries && entries[key].IntValue? ==> r == Some(entries[key].i)
    ensures key in entries && entries[key].LongValue? ==> r == Some(entries[key].l)
  {
    if key !in entries then None
    else match entries[key]
      case IntValue(i) => Some(i)
      case LongValue(l) => Some(l)
      case _ => None
  }

  /** `entries[key] as? FlutterStandardTypedData`: a byte list. */
  function AsBytes(entries: map<string, Value>, key: string): (r: Option<seq<Byte>>)
    ensures r.Some? <==> key in entries && entries[key].BytesValue?
    ensures r.Some? ==> r.value == entries[key].bytes
  {
    if key in entries && entries[key].BytesValue? then Some(entries[key].bytes) else None
  }

  /** Swift's integer division by two, which rounds toward zero. */
  function HalfTowardZero(x: int): (r: int)
    ensures 0 <= x ==> 0 <= x - 2 * r <= 1
    ensures x < 0 ==> -1 <= x - 2 * r <= 0
  {
    if 0 <= x then x / 2 else -((-x) / 2)
  }

  /** A validated detection request, with defaults applied. */
  datatype DetectRequest = DetectRequest(
    width: int, height: int,
    plane0: seq<Byte>, plane1: seq<Byte>, plane2: Option<seq<Byte>>,
    yStride: int, p1Stride: int, p2Stride: int,
    timestampMs: int)

  /** Where a call goes: not handled here, rejected for its arguments, or a frame to detect on. */
  datatype Dispatch = NotDetect | InvalidArguments | Detect(req: DetectRequest)

  /**
   * The handler's guards and defaults. A missing stride of the Y plane or
   * of plane 1 defaults to the width, a missing stride of plane 2 to half
   * the width; a missing timestamp is `now`, the wall clock in milliseconds.
   */
  function ParseCall(call: MethodCall, now: int): (d: Dispatch)
    ensures d.NotDetect? <==> call.name != DetectPoseStream || !call.arguments.Dictionary?
    ensures d.InvalidArguments? <==>
              call.name == DetectPoseStream && call.arguments.Dictionary? &&
              var e := call.arguments.entries;
              AsInt(e, "width").None? || AsInt(e, "height").None? || AsBytes(e, "plane0").None? || AsBytes(e, "plane1").None?
    ensures d.Detect? ==>
              var e := call.arguments.entries;
              var r := d.req;
              Some(r.width) == AsInt(e, "width") && Some(r.height) == AsInt(e, "height") &&
              Some(r.plane0) == AsBytes(e, "plane0") && Some(r.plane1) == AsBytes(e, "plane1") &&
              r.plane2 == AsBytes(e, "plane2") &&
              r.yStride == AsInt(e, "stride0").GetOr(r.width) &&
              r.p1Stride == AsInt(e, "stride1").GetOr(r.width) &&
              r.p2Stride == AsInt(e, "stride2").GetOr(HalfTowardZero(r.width)) &&
              r.timestampMs == AsInt(e, "timestamp").GetOr(now)
  {
    if call.name != DetectPoseStream || !call.arguments.Dictionary? then NotDetect
    else
      var args := call.arguments.entries;
      var width, height := AsInt(args, "width"), AsInt(args, "height");
      var yPlane, plane1 := AsBytes(args, "plane0"), AsBytes(args, "plane1");
      if width.None? || height.None? || yPlane.None? || plane1.None? then InvalidArguments
      else
        var w := width.value;
        Detect(DetectRequest(
          w, height.value, yPlane.value, plane1.value, AsBytes(args, "plane2"),
          AsInt(args, "stride0").GetOr(w), AsInt(args, "stride1").GetOr(w), AsInt(args, "stride2").GetOr(HalfTowardZero(w)),
          AsInt(args, "timestamp").GetOr(now)))
  }

  /** A request carrying only the four required arguments takes every default and the two-plane path. */
  lemma RequiredOnlyDefaults(w: Int32, h: Int32, y: seq<Byte>, uv: seq<Byte>, now: int)
    ensures ParseCall(MethodCall(DetectPoseStream, Dictionary(map["width" := IntValue(w), "height" := IntValue(h),
                                                                  "plane0" := BytesValue(y), "plane1" := BytesValue(uv)])), now)
         == Detect(DetectRequest(w, h, y, uv, None, w, w, HalfTowardZero(w), now))
  {
    var e := map["width" := IntValue(w), "height" := IntValue(h), "plane0" := BytesValue(y), "plane1" := BytesValue(uv)];
    assert "stride0" !in e && "stride1" !in e && "stride2" !in e && "timestamp" !in e && "plane2" !in e;
  }

  /** The frame the caller sends is the frame read: every argument present and well typed reaches the request unchanged. */
  lemma FrameArgumentsKept(entries: map<string, Value>, now: int, width: Int32, height: Int32, y: seq<Byte>, p1: seq<Byte>, p2: seq<Byte>,
                           yStride: Int32, p1Stride: Int32, p2Stride: Int32, timestamp: Int64)
    requires "width" in entries && entries["width"] == IntValue(width)
    requires "height" in entries && entries["height"] == IntValue(height)
    requires "plane0" in entries && entries["plane0"] == BytesValue(y)
    requires "plane1" in entries && entries["plane1"] == BytesValue(p1)
    requires "plane2" in entries && entries["plane2"] == BytesValue(p2)
    requires "stride0" in entries && entries["stride0"] == IntValue(yStride)
    requires "stride1" in entries && entries["stride1"] == IntValue(p1Stride)
    requires "stride2" in entries && entries["stride2"] == IntValue(p2Stride)
    requires "timestamp" in entries && entries["timestamp"] == LongValue(timestamp)
    ensures ParseCall(MethodCall(DetectPoseStream, Dictionary(entries)), now)
         == Detect(DetectRequest(width, height, y, p1, Some(p2), yStride, p1Stride, p2Stride, timestamp))
  {
  }

  /** The planes hold every byte the chosen builder reads. */
  predicate FrameReadable(req: DetectRequest)
    requires CreateSucceeds(req.width, req.height)
  {
    RowsReadable(req.plane0, req.height, req.width, req.yStride) &&
    if req.plane2.Some? then
      Plane(req.plane1, req.p1Stride, 1).Readable(req.height / 2, req.width / 2) &&
      Plane(req.plane2.value, req.p2Stride, 1).Readable(req.height / 2, req.width / 2)
    else
      RowsReadable(req.plane1, req.height / 2, req.width, req.p1Stride)
  }

  // ---------------------------------------------------------------------------
  // The app delegate

  class AppDelegate {
    var poseLandmarker: Option<PoseLandmarker>
    var latestResult: Option<PoseLandmarkerResult>
    /** The timestamps of the frames handed to the landmarker, in order. */
    var detections: seq<int>

    predicate Valid()
      reads this
    {
      poseLandmarker.Some? ==> poseLandmarker.value.options == PoseOptions
    }

    /** At launch no landmarker is created: it is set up on the first call. */
    constructor ()
      ensures Valid()
      ensures poseLandmarker == None && latestResult == None && detections == []
    {
      poseLandmarker := None;
      latestResult := None;
      detections := [];
    }

    /** Creates the landmarker unless one exists already. */
    method SetupPoseLandmarker()
      requires Valid()
      modifies this`poseLandmarker
      ensures Valid()
      ensures old(poseLandmarker).Some? ==> poseLandmarker == old(poseLandmarker)
      ensures old(poseLandmarker).None? ==> poseLandmarker == Some(PoseLandmarker(PoseOptions))
    {
      if poseLandmarker.Some? {
        return;
      }
      poseLandmarker := Some(PoseLandmarker(PoseOptions));
    }

    /** The delegate callback: an error, or no result, leaves the cache alone; a result replaces it. */
    method PoseLandmarkerDidFinishDetection(result: Option<PoseLandmarkerResult>, timestampInMilliseconds: int, error: Option<string>)
      modifies this`latestResult
      ensures latestResult == Deliver(old(latestResult), Callback(result, error.Some?))
    {
      if error.Some? {
        return;
      }
      if result.Some? {
        latestResult := result;
      }
    }

    /** The second spelling of the delegate callback, which does the same. */
    method PoseLandmarkerDidFinishDetectionWithResult(result: Option<PoseLandmarkerResult>, timestampInMilliseconds: int, error: Option<string>)
      modifies this`latestResult
      ensures latestResult == Deliver(old(latestResult), Callback(result, error.Some?))
    {
      if error.Some? {
        return;
      }
      if result.Some? {
        latestResult := result;
      }
    }

    /**
     * What handling a valid request does: the landmarker is set up if there
     * is none; the pixel buffer is built (failing for a non-positive
     * dimension) with the three-plane builder when plane 2 is present and
     * the two-plane builder otherwise; the frame is converted and handed to
     * the landmarker; the reply is the first pose of the result cached
     * before the call. Every failure replies POSE_ERROR.
     */
    twostate predicate DetectOutcome(req: DetectRequest, created: Nv12PixelBuffer, imageOk: bool, detectOk: bool, reply: Reply)
      requires created.Valid()
      requires CreateSucceeds(req.width, req.height) ==> FrameReadable(req) && created.width == req.width && created.height == req.height
      reads this, created.lumaPlane, created.chromaPlane
    {
      created.Layout();
      latestResult == old(latestResult) &&
      poseLandmarker == (if old(poseLandmarker).Some? then old(poseLandmarker) else Some(PoseLandmarker(PoseOptions))) &&
      if !CreateSucceeds(req.width, req.height) then
        reply == Error(PoseError) && detections == old(detections) &&
        created.lumaPlane[..] == old(created.lumaPlane[..]) && created.chromaPlane[..] == old(created.chromaPlane[..])
      else
        created.lumaPlane[..] == CopyRows(old(created.lumaPlane[..]), req.plane0, req.height, req.width, req.yStride, created.lumaBytesPerRow) &&
        (req.plane2.Some? ==>
           created.chromaPlane[..] == InterleaveRows(old(created.chromaPlane[..]), Plane(req.plane1, req.p1Stride, 1), Plane(req.plane2.value, req.p2Stride, 1),
                                                     req.height / 2, req.width / 2, 0, created.chromaBytesPerRow)) &&
        (req.plane2.None? ==>
           created.chromaPlane[..] == CopyRows(old(created.chromaPlane[..]), req.plane1, req.height / 2, req.width, req.p1Stride, created.chromaBytesPerRow)) &&
        if !imageOk || !detectOk then
          reply == Error(PoseError) && detections == old(detections)
        else
          reply == Success(Output(latestResult)) && detections == old(detections) + [req.timestampMs]
    }

    /**
     * Handles one method-channel call. `now` is the wall clock in
     * milliseconds; `created` is the pixel buffer the allocator hands out
     * for the frame's dimensions (its rows padded as it chooses); `imageOk`
     * says whether the conversion to a BGRA image succeeds and `detectOk`
     * whether the landmarker accepts the frame, both outside this model.
     * The planes must hold every byte the builders copy: they are read
     * without bounds checks.
     */
    method HandleMethodCall(call: MethodCall, now: int, created: Nv12PixelBuffer, imageOk: bool, detectOk: bool) returns (reply: Reply)
      requires Valid() && created.Valid()
      requires ParseCall(call, now).Detect? && CreateSucceeds(ParseCall(call, now).req.width, ParseCall(call, now).req.height) ==>
                 var req := ParseCall(call, now).req;
                 FrameReadable(req) && created.width == req.width && created.height == req.height
      modifies this, created.lumaPlane, created.chromaPlane
      ensures Valid()
      ensures ParseCall(call, now).NotDetect? ==>
                reply == NotImplemented && unchanged(this, created.lumaPlane, created.chromaPlane)
      ensures ParseCall(call, now).InvalidArguments? ==>
                reply == Error(InvalidArgs) && unchanged(this, created.lumaPlane, created.chromaPlane)
      ensures ParseCall(call, now).Detect? ==>
                DetectOutcome(ParseCall(call, now).req, created, imageOk, detectOk, reply)
    {
      var dispatch := ParseCall(call, now);
      if dispatch.NotDetect? {
        return NotImplemented;
      }
      if dispatch.InvalidArguments? {
        return Error(InvalidArgs);
      }
      reply := DetectPose(dispatch.req, created, imageOk, detectOk);
    }

    /** The `do` block of the handler. */
    method DetectPose(req: DetectRequest, created: Nv12PixelBuffer, imageOk: bool, detectOk: bool) returns (reply: Reply)
      requires Valid() && created.Valid()
      requires CreateSucceeds(req.width, req.height) ==> FrameReadable(req) && created.width == req.width && created.height == req.height
      modifies this, created.lumaPlane, created.chromaPlane
      ensures Valid()
      ensures DetectOutcome(req, created, imageOk, detectOk, reply)
    {
      if poseLandmarker.None? {
        SetupPoseLandmarker();
      }

      var nv12Buffer: Option<Nv12PixelBuffer>;
      if req.plane2.Some? {
        nv12Buffer := CreateNv12PixelBufferFromYUV420(req.plane0, req.plane1, req.plane2.value, req.width, req.height,
                                                      req.yStride, req.p1Stride, req.p2Stride, created);
      } else {
        nv12Buffer := CreateNv12PixelBufferFromNv12Planes(req.plane0, req.plane1, req.width, req.height,
                                                          req.yStride, req.p1Stride, created);
      }
      if nv12Buffer.None? {
        return Error(PoseError);
      }

      if !imageOk || !detectOk {
        return Error(PoseError);
      }
      detections := detections + [req.timestampMs];

      var output := BuildOutput(latestResult);
      reply := Success(output);
    }
  }
}
