/**
 * The Android side (MainActivity.kt): the activity's method-channel handler
 * reads the frame's arguments with their defaults, keeps one bitmap for the
 * converted frame, hands the planes to the NV21 converter, submits the frame
 * to the landmarker and replies with the cached result; the landmarker's
 * listeners fill that cache.
 */
module Android {
  import opened Wrappers
  import opened Planes
  import opened Nv21
  import opened Pose
  import opened Channel

  // ---------------------------------------------------------------------------
  // Reading the arguments

  /** The outcome of reading one argument with a given type: absent (null), present, or a value of another type. */
  datatype Cast<T> = Missing | Present(value: T) | CastFails
  {
    /** The value, or `default` when the argument is absent (`?:`). */
    function Or(default: T): T
    {
      if Present? then value else default
    }
  }

  /** Looks `key` up in the call's arguments, which must be absent or a dictionary. */
  function Lookup(args: Arguments, key: string): Cast<Value>
  {
    match args
    case NoArguments => Missing
    case OtherArguments => CastFails
    case Dictionary(entries) =>
      if key in entries && entries[key] != NullValue then Present(entries[key]) else Missing
  }

  /** Reads a 32-bit integer argument. */
  function IntArgument(args: Arguments, key: string): (r: Cast<Int32>)
    ensures r.Missing? <==> Lookup(args, key).Missing?
    ensures r.Present? <==> Lookup(args, key).Present? && Lookup(args, key).value.IntValue?
    ensures r.Present? ==> r.value == Lookup(args, key).value.i
  {
    match Lookup(args, key)
    case Missing => Missing
    case CastFails => CastFails
    case Present(v) => if v.IntValue? then Present(v.i) else CastFails
  }

  /** Reads a 64-bit integer argument; a value that arrived as a 32-bit integer is of the wrong type. */
  function LongArgument(args: Arguments, key: string): (r: Cast<Int64>)
    ensures r.Missing? <==> Lookup(args, key).Missing?
    ensures r.Present? <==> Lookup(args, key).Present? && Lookup(args, key).value.LongValue?
    ensures r.Present? ==> r.value == Lookup(args, key).value.l
  {
    match Lookup(args, key)
    case Missing => Missing
    case CastFails => CastFails
    case Present(v) => if v.LongValue? then Present(v.l) else CastFails
  }

  /** Reads a byte-array argument. */
  function BytesArgument(args: Arguments, key: string): (r: Cast<seq<Byte>>)
    ensures r.Missing? <==> Lookup(args, key).Missing?
    ensures r.Present? <==> Lookup(args, key).Present? && Lookup(args, key).value.BytesValue?
    ensures r.Present? ==> r.value == Lookup(args, key).value.bytes
  {
    match Lookup(args, key)
    case Missing => Missing
    case CastFails => CastFails
    case Present(v) => if v.BytesValue? then Present(v.bytes) else CastFails
  }

  /** The arguments of a detection request after defaults are applied. */
  datatype DetectRequest = DetectRequest(
    width: Int32, height: Int32, rotation: Int32, timestamp: Int64,
    plane0: Option<seq<Byte>>, plane1: Option<seq<Byte>>, plane2: Option<seq<Byte>>,
    stride0: Int32, stride1: Int32, stride2: Int32,
    pixelStride1: Int32, pixelStride2: Int32)

  const IntKeys: set<string> := {"width", "height", "rotation", "stride0", "stride1", "stride2", "pixelStride1", "pixelStride2"}
  const PlaneKeys: set<string> := {"plane0", "plane1", "plane2"}

  /** The type the handler reads each argument with: bytes for the planes, a 64-bit timestamp, 32-bit integers otherwise. */
  predicate HasExpectedType(key: string, v: Value)
  {
    if key in PlaneKeys then v.BytesValue?
    else if key == "timestamp" then v.LongValue?
    else if key in IntKeys then v.IntValue?
    else true
  }

  /** Every argument the handler reads is absent, null, or of the type it is read with. */
  predicate WellTyped(args: Arguments)
  {
    match args
    case NoArguments => true
    case OtherArguments => false
    case Dictionary(entries) => forall k :: k in entries && entries[k] != NullValue ==> HasExpectedType(k, entries[k])
  }

  function ToOption<T>(c: Cast<T>): Option<T>
  {
    if c.Present? then Some(c.value) else None
  }

  /**
   * Reads the request's arguments in the handler's order. `None` stands for
   * the cast exception an argument of the wrong type raises, which escapes
   * the handler.
   */
  function ParseArguments(args: Arguments): (r: Option<DetectRequest>)
    ensures r.None? <==>
              IntArgument(args, "width").CastFails? || IntArgument(args, "height").CastFails? ||
              IntArgument(args, "rotation").CastFails? || LongArgument(args, "timestamp").CastFails? ||
              BytesArgument(args, "plane0").CastFails? || BytesArgument(args, "plane1").CastFails? ||
              BytesArgument(args, "plane2").CastFails? ||
              IntArgument(args, "stride0").CastFails? || IntArgument(args, "stride1").CastFails? ||
              IntArgument(args, "stride2").CastFails? ||
              IntArgument(args, "pixelStride1").CastFails? || IntArgument(args, "pixelStride2").CastFails?
    ensures r.Some? ==>
              r.value.width == IntArgument(args, "width").Or(0) &&
              r.value.height == IntArgument(args, "height").Or(0) &&
              r.value.rotation == IntArgument(args, "rotation").Or(0) &&
              r.value.timestamp == LongArgument(args, "timestamp").Or(0) &&
              r.value.plane0 == ToOption(BytesArgument(args, "plane0")) &&
              r.value.plane1 == ToOption(BytesArgument(args, "plane1")) &&
              r.value.plane2 == ToOption(BytesArgument(args, "plane2")) &&
              r.value.stride0 == IntArgument(args, "stride0").Or(0) &&
              r.value.stride1 == IntArgument(args, "stride1").Or(0) &&
              r.value.stride2 == IntArgument(args, "stride2").Or(0) &&
              r.value.pixelStride1 == IntArgument(args, "pixelStride1").Or(1) &&
              r.value.pixelStride2 == IntArgument(args, "pixelStride2").Or(1)
  {
    var width := IntArgument(args, "width");
    var height := IntArgument(args, "height");
    var rotation := IntArgument(args, "rotation");
    var timestamp := LongArgument(args, "timestamp");
    var plane0 := BytesArgument(args, "plane0");
    var plane1 := BytesArgument(args, "plane1");
    var plane2 := BytesArgument(args, "plane2");
    var stride0 := IntArgument(args, "stride0");
    var stride1 := IntArgument(args, "stride1");
    var stride2 := IntArgument(args, "stride2");
    var pixelStride1 := IntArgument(args, "pixelStride1");
    var pixelStride2 := IntArgument(args, "pixelStride2");
    if width.CastFails? || height.CastFails? || rotation.CastFails? || timestamp.CastFails? ||
       plane0.CastFails? || plane1.CastFails? || plane2.CastFails? ||
       stride0.CastFails? || stride1.CastFails? || stride2.CastFails? ||
       pixelStride1.CastFails? || pixelStride2.CastFails?
    then
      None
    else
      Some(DetectRequest(
        width.Or(0), height.Or(0), rotation.Or(0), timestamp.Or(0),
        ToOption(plane0), ToOption(plane1), ToOption(plane2),
        stride0.Or(0), stride1.Or(0), stride2.Or(0),
        pixelStride1.Or(1), pixelStride2.Or(1)))
  }

  /** A request is read without a cast exception exactly when its arguments are well typed. */
  lemma ParseAcceptsWellTyped(args: Arguments)
    ensures ParseArguments(args).Some? <==> WellTyped(args)
  {
    if ParseArguments(args).Some? {
      ParsedIsWellTyped(args);
    } else {
      IllTypedIsRejected(args);
    }
  }

  /** Every value a successful read met was of the type it was read with. */
  lemma ParsedIsWellTyped(args: Arguments)
    requires ParseArguments(args).Some?
    ensures WellTyped(args)
  {
    if args.Dictionary? {
      var entries := args.entries;
      forall k | k in entries && entries[k] != NullValue
        ensures HasExpectedType(k, entries[k])
      {
        if k in PlaneKeys {
          assert k == "plane0" || k == "plane1" || k == "plane2";
        } else if k in IntKeys {
          assert k == "width" || k == "height" || k == "rotation" || k == "stride0" || k == "stride1" || k == "stride2"
              || k == "pixelStride1" || k == "pixelStride2";
        }
      }
    }
  }

  /** A read that fails met an argument of the wrong type. */
  lemma IllTypedIsRejected(args: Arguments)
    requires ParseArguments(args).None?
    ensures !WellTyped(args)
  {
  }

  /** The frame the caller sends is the frame read: present, well-typed geometry, planes and timestamp pass through unchanged. */
  lemma FrameArgumentsKept(entries: map<string, Value>, width: Int32, height: Int32, y: seq<Byte>, u: seq<Byte>, v: seq<Byte>,
                           yStride: Int32, uStride: Int32, vStride: Int32, uPixelStride: Int32, vPixelStride: Int32, timestamp: Int64)
    requires ParseArguments(Dictionary(entries)).Some?
    requires "width" in entries && entries["width"] == IntValue(width)
    requires "height" in entries && entries["height"] == IntValue(height)
    requires "plane0" in entries && entries["plane0"] == BytesValue(y)
    requires "plane1" in entries && entries["plane1"] == BytesValue(u)
    requires "plane2" in entries && entries["plane2"] == BytesValue(v)
    requires "stride0" in entries && entries["stride0"] == IntValue(yStride)
    requires "stride1" in entries && entries["stride1"] == IntValue(uStride)
    requires "stride2" in entries && entries["stride2"] == IntValue(vStride)
    requires "pixelStride1" in entries && entries["pixelStride1"] == IntValue(uPixelStride)
    requires "pixelStride2" in entries && entries["pixelStride2"] == IntValue(vPixelStride)
    requires "timestamp" in entries && entries["timestamp"] == LongValue(timestamp)
    ensures var r := ParseArguments(Dictionary(entries)).value;
            r.width == width && r.height == height && r.timestamp == timestamp &&
            r.plane0 == Some(y) && r.plane1 == Some(u) && r.plane2 == Some(v) &&
            r.stride0 == yStride && r.stride1 == uStride && r.stride2 == vStride &&
            r.pixelStride1 == uPixelStride && r.pixelStride2 == vPixelStride
  {
  }

  /** A call without arguments takes every default and carries no planes. */
  lemma NoArgumentsDefaults()
    ensures ParseArguments(NoArguments) == Some(DetectRequest(0, 0, 0, 0, None, None, None, 0, 0, 0, 1, 1))
  {
  }

  /**
   * A timestamp small enough to arrive as a 32-bit integer is of the wrong
   * type for the 64-bit read, so the request is rejected before any frame work.
   */
  lemma ShortTimestampRejected(entries: map<string, Value>, t: Int32)
    requires "timestamp" in entries && entries["timestamp"] == IntValue(t)
    ensures ParseArguments(Dictionary(entries)).None?
  {
  }

  /** All three planes are present. */
  predicate HasPlanes(req: DetectRequest)
  {
    req.plane0.Some? && req.plane1.Some? && req.plane2.Some?
  }

  /** Every read of the Y-copy and chroma loops is inside its plane, so no index exception is raised. */
  predicate FrameReadable(req: DetectRequest)
    requires HasPlanes(req)
    requires 0 <= req.width && 0 <= req.height
  {
    PlanesReadable(req.plane0.value, req.stride0,
                   Plane(req.plane1.value, req.stride1, req.pixelStride1),
                   Plane(req.plane2.value, req.stride2, req.pixelStride2),
                   req.width, req.height)
  }

  // ---------------------------------------------------------------------------
  // The activity

  /** The ARGB bitmap the converter renders into. */
  class Bitmap {
    const width: nat
    const height: nat

    /** `Bitmap.createBitmap` accepts only positive dimensions. */
    constructor (width: int, height: int)
      requires 0 < width && 0 < height
      ensures this.width == width && this.height == height
    {
      this.width := width;
      this.height := height;
    }
  }

  class MainActivity {
    var poseLandmarker: Option<PoseLandmarker>
    var latestResult: Option<PoseLandmarkerResult>
    const yuvConverter: FastYuvToRgbConverter
    var rgbBitmap: Bitmap?
    /** The timestamps of the frames handed to the landmarker, in order. */
    var detections: seq<Int64>

    ghost predicate Valid()
      reads this, yuvConverter
    {
      yuvConverter.Valid() &&
      (poseLandmarker.Some? ==> poseLandmarker.value.options == PoseOptions)
    }

    /** `configureFlutterEngine`: creates the converter and sets up the landmarker before any call arrives. */
    constructor ()
      ensures Valid()
      ensures fresh(yuvConverter) && yuvConverter.yuvBuffer == null && yuvConverter.inputAllocation.None?
      ensures poseLandmarker == Some(PoseLandmarker(PoseOptions))
      ensures latestResult == None && rgbBitmap == null && detections == []
    {
      yuvConverter := new FastYuvToRgbConverter();
      poseLandmarker := None;
      latestResult := None;
      rgbBitmap := null;
      detections := [];
      new;
      SetupPoseLandmarker();
    }

    /** Creates the landmarker unless one exists already. */
    method SetupPoseLandmarker()
      requires Valid()
      modifies this`poseLandmarker
      ensures Valid()
      ensures old(poseLandmarker).Some? ==> poseLandmarker == old(poseLandmarker)
      ensures old(poseLandmarker).None? ==> poseLandmarker == Some(PoseLandmarker(PoseOptions))
    {
      if poseLandmarker.Some? {
        return;
      }
      poseLandmarker := Some(PoseLandmarker(PoseOptions));
    }

    /** The result listener: every result replaces the cached one. */
    method OnResult(result: PoseLandmarkerResult)
      modifies this`latestResult
      ensures latestResult == Deliver(old(latestResult), Callback(Some(result), false))
    {
      latestResult := Some(result);
    }

    /** The error listener only logs: the cache is left alone. */
    method OnError()
      ensures latestResult == Deliver(old(latestResult), Callback(None, true))
    {
    }

    /** The bitmap the frame is rendered into is kept when its dimensions match the request. */
    predicate BitmapFits(width: int, height: int)
      reads this, rgbBitmap
    {
      rgbBitmap != null && rgbBitmap.width == width && rgbBitmap.height == height
    }

    /** The converter's NV21 array, when there is one, keeps every byte. */
    twostate predicate NoBufferWrite()
      reads yuvConverter, yuvConverter.yuvBuffer
    {
      yuvConverter.yuvBuffer == old(yuvConverter.yuvBuffer) &&
      (yuvConverter.yuvBuffer != null ==> unchanged(yuvConverter.yuvBuffer))
    }

    /**
     * What handling a request with all three planes does, from the `try`
     * block on: the bitmap is reused or recreated (a request for a new bitmap
     * with a non-positive dimension fails); the planes are packed into the
     * converter's NV21 array, an out-of-bounds read failing; the frame is
     * converted and handed to the landmarker; the reply is the first pose of
     * the result cached before the call. Every failure replies POSE_ERROR.
     */
    twostate predicate DetectOutcome(req: DetectRequest, convertOk: bool, detectOk: bool, reply: Reply)
      requires HasPlanes(req)
      reads this, rgbBitmap, yuvConverter, yuvConverter.yuvBuffer
    {
      var reuse := old(BitmapFits(req.width, req.height));
      latestResult == old(latestResult) && poseLandmarker == old(poseLandmarker) &&
      if !reuse && (req.width <= 0 || req.height <= 0) then
        reply == Error(PoseError) && rgbBitmap == old(rgbBitmap) && detections == old(detections) &&
        unchanged(yuvConverter) && NoBufferWrite()
      else
        var size := Nv21Size(req.width, req.height);
        (reuse ==> rgbBitmap == old(rgbBitmap)) &&
        (!reuse ==> fresh(rgbBitmap) && BitmapFits(req.width, req.height)) &&
        yuvConverter.yuvBuffer != null && yuvConverter.yuvBuffer.Length == size &&
        (Reusable(old(yuvConverter.yuvBuffer), size) ==> yuvConverter.yuvBuffer == old(yuvConverter.yuvBuffer)) &&
        (!Reusable(old(yuvConverter.yuvBuffer), size) ==> fresh(yuvConverter.yuvBuffer)) &&
        if !FrameReadable(req) then
          reply == Error(PoseError) && detections == old(detections) &&
          yuvConverter.inputAllocation == old(yuvConverter.inputAllocation) &&
          yuvConverter.outputAllocation == old(yuvConverter.outputAllocation)
        else
          yuvConverter.yuvBuffer[..] == PackNv21(old(StartContents(yuvConverter.yuvBuffer, size)), req.plane0.value, req.stride0,
                                                 Plane(req.plane1.value, req.stride1, req.pixelStride1),
                                                 Plane(req.plane2.value, req.stride2, req.pixelStride2),
                                                 req.width, req.height) &&
          (old(yuvConverter.inputAllocation).Some? ==>
             yuvConverter.inputAllocation == old(yuvConverter.inputAllocation) &&
             yuvConverter.outputAllocation == old(yuvConverter.outputAllocation)) &&
          (old(yuvConverter.inputAllocation).None? ==>
             yuvConverter.inputAllocation == Some(ByteAllocation(size)) &&
             yuvConverter.outputAllocation == Some(RgbaAllocation(req.width, req.height))) &&
          if !convertOk || (poseLandmarker.Some? && !detectOk) then
            reply == Error(PoseError) && detections == old(detections)
          else
            reply == Success(Output(latestResult)) &&
            detections == old(detections) + (if poseLandmarker.Some? then [req.timestamp] else [])
    }

    /**
     * Handles one method-channel call. `convertOk` says whether the colour
     * conversion of the packed frame succeeds and `detectOk` whether the
     * landmarker accepts the frame; both are outside this model. The reply
     * is built from the result cached before the call: the listener runs
     * later, on the landmarker's thread.
     */
    method OnMethodCall(call: MethodCall, convertOk: bool, detectOk: bool) returns (reply: Reply)
      requires Valid()
      modifies this, yuvConverter, yuvConverter.yuvBuffer
      ensures Valid()
      ensures call.name != DetectPoseStream ==>
                reply == NotImplemented && unchanged(this, yuvConverter) && NoBufferWrite()
      ensures call.name == DetectPoseStream && ParseArguments(call.arguments).None? ==>
                reply == Uncaught && unchanged(this, yuvConverter) && NoBufferWrite()
      ensures call.name == DetectPoseStream && ParseArguments(call.arguments).Some? && !HasPlanes(ParseArguments(call.arguments).value) ==>
                reply == Error(NoPlanes) && unchanged(this, yuvConverter) && NoBufferWrite()
      ensures call.name == DetectPoseStream && ParseArguments(call.arguments).Some? && HasPlanes(ParseArguments(call.arguments).value) ==>
                DetectOutcome(ParseArguments(call.arguments).value, convertOk, detectOk, reply)
    {
      if call.name != DetectPoseStream {
        return NotImplemented;
      }
      var parsed := ParseArguments(call.arguments);
      if parsed.None? {
        return Uncaught;
      }
      var req := parsed.value;
      if req.plane0.None? || req.plane1.None? || req.plane2.None? {
        return Error(NoPlanes);
      }
      reply := DetectPose(req, convertOk, detectOk);
    }

    /** The `try` block of the handler. */
    method DetectPose(req: DetectRequest, convertOk: bool, detectOk: bool) returns (reply: Reply)
      requires Valid() && HasPlanes(req)
      modifies this, yuvConverter, yuvConverter.yuvBuffer
      ensures Valid()
      ensures DetectOutcome(req, convertOk, detectOk, reply)
    {
      if !BitmapFits(req.width, req.height) {
        if req.width <= 0 || req.height <= 0 {
          return Error(PoseError);
        }
        rgbBitmap := new Bitmap(req.width, req.height);
      }
      var width, height := req.width as nat, req.height as nat;

      if !FrameReadable(req) {
        var _ := yuvConverter.ReserveYuvBuffer(width, height);
        return Error(PoseError);
      }
      yuvConverter.Yuv420ToBitmap(req.plane0.value, req.plane1.value, req.plane2.value, width, height,
                                  req.stride0, req.stride1, req.stride2, req.pixelStride1, req.pixelStride2);
      if !convertOk {
        return Error(PoseError);
      }

      if poseLandmarker.Some? {
        if !detectOk {
          return Error(PoseError);
        }
        detections := detections + [req.timestamp];
      }

      var output := BuildOutput(latestResult);
      reply := Success(output);
    }
  }
}
