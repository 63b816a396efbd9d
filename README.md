# Pose-detection frame bridge, in Dafny

A Flutter app streams camera frames to native code over the method channel
`nereus/pose_detection`. Each call `detectPoseStream` carries the frame's
planes (`plane0`, `plane1`, optionally `plane2`), their row strides, the
frame's dimensions and a timestamp. The native side repacks the planes
into the layout its platform's image path wants, hands the frame to a
MediaPipe pose landmarker running in live-stream mode, and replies at once
with the `{x, y, z}` of every landmark of the first pose in the latest
result the landmarker has reported so far.

This project models that bridge on both platforms and proves what it does:

- `planes.dfy` (module `Planes`): planes as byte sequences with row and
  pixel strides, and the two repacking operations both platforms use,
  stated as functions: copying `width` bytes of each row to a destination
  with its own row pitch (`CopyRows`), and interleaving two chroma planes
  into byte pairs (`InterleaveRows`). Lemmas say exactly which byte lands
  where, that nothing outside the written rows changes, and that row
  padding in the source never matters. `CopyBytes` is the bulk copy
  (`System.arraycopy`, `memcpy`).
- `nv21.dfy` (module `Nv21`): the Android converter `FastYuvToRgbConverter`
  as a class. It keeps one NV21 array and reuses it while its size equals the new frame's size.
  It copies the luma rows, then writes the chroma as V,U pairs. It creates
  its two conversion allocations on the first frame only.
- `nv12.dfy` (module `Nv12`): the iOS builders. An NV12 pixel buffer is a
  class with two plane arrays, each with its own bytes-per-row. There are
  two builders. One copies a frame that is already NV12. The other
  interleaves a three-plane frame's U and V planes, U first, one byte per
  sample.
- `pose.dfy` (module `Pose`): landmarks, results and the reply. Also the
  single-slot result cache and its last-write-wins law.
- `channel.dfy` (module `Channel`): the call, the values its argument
  dictionary can carry, error codes and replies.
- `android.dfy` (module `Android`): `MainActivity`. This covers argument
  reading with Kotlin's typed reads and defaults, the `NO_PLANES` check,
  bitmap reuse, the handler's `try` block, and the result and error
  listeners.
- `ios.dfy` (module `Ios`): `AppDelegate`. This covers the guards and
  defaults, with `INVALID_ARGS` and Swift's rounding of `width / 2`, the
  lazy landmarker setup, the choice of builder, the `do` block, and both
  delegate callbacks.

Some behaviours of the model are worth knowing:

- On Android the converter's allocations keep the dimensions of the first
  frame. A later frame of another size gets a new NV21 array but the old
  allocations.
- On Android a timestamp small enough to arrive as a 32-bit integer makes
  the 64-bit read throw. That exception escapes the handler's `try`.
- On iOS the three-plane builder reads the chroma planes one byte per
  sample. Any pixel stride is ignored.

## Model

Source paths are relative to the repository root.
`FastYuvToRgbConverter.kt` and `MainActivity.kt` are under
`android/app/src/main/kotlin/com/example/nereus_abp_app/`.

| member | source | states |
|---|---|---|
| Planes.CopyRows | android/app/src/main/kotlin/com/example/nereus_abp_app/FastYuvToRgbConverter.kt:43-47 | The bytes after copying `width` bytes of each source row to consecutive destination rows. The result keeps the destination's length; its content is stated by `CopyRowsAt` and `CopyRowsOutside`. |
| Planes.InterleaveRow | android/app/src/main/kotlin/com/example/nereus_abp_app/FastYuvToRgbConverter.kt:60-65 | One chroma row written as byte pairs, a sample of the first plane then one of the second. The length is unchanged. |
| Planes.InterleaveRows | android/app/src/main/kotlin/com/example/nereus_abp_app/FastYuvToRgbConverter.kt:55-66 | All chroma rows written as pairs, row by row. The length is unchanged. |
| Planes.IndexIsProduct | android/app/src/main/kotlin/com/example/nereus_abp_app/FastYuvToRgbConverter.kt:60-61 | A sample sits at `row * rowStride + col * pixelStride` in its plane. |
| Planes.RowsFit | android/app/src/main/kotlin/com/example/nereus_abp_app/FastYuvToRgbConverter.kt:43-47 | Rows no wider than their pitch, `rows` of them, fit in any buffer of `rows * pitch` bytes. |
| Planes.CopyRowsAt | android/app/src/main/kotlin/com/example/nereus_abp_app/FastYuvToRgbConverter.kt:43-47 | After the row copy, byte `c` of destination row `r` is byte `c` of source row `r`, for every `r < rows` and `c < width`. |
| Planes.CopyRowsOutside | ios/Runner/AppDelegate.swift:240-247 | The row copy changes no byte outside the destination rows' first `width` bytes. |
| Planes.CopyRowsPadding | ios/Runner/AppDelegate.swift:240-247 | Bytes past `width` in each destination row are not written. |
| Planes.CopyRowsIgnoresPadding | android/app/src/main/kotlin/com/example/nereus_abp_app/FastYuvToRgbConverter.kt:43-47 | Two sources with the same logical row bytes give the same copy, whatever their strides and padding. |
| Planes.InterleaveRowAt | android/app/src/main/kotlin/com/example/nereus_abp_app/FastYuvToRgbConverter.kt:60-65 | Within one row, pair `c` holds sample `c` of the first plane then sample `c` of the second. |
| Planes.InterleaveRowsAt | android/app/src/main/kotlin/com/example/nereus_abp_app/FastYuvToRgbConverter.kt:55-65 | After all rows, pair `c` of row `r` holds the first plane's sample `(r, c)` then the second plane's. |
| Planes.InterleaveRowsOutside | android/app/src/main/kotlin/com/example/nereus_abp_app/FastYuvToRgbConverter.kt:55-65 | The interleave changes no byte outside the pairs it writes. |
| Planes.InterleaveRowsPadding | ios/Runner/AppDelegate.swift:327-339 | Bytes past the pairs in each destination row are not written. |
| Planes.InterleaveRowsIgnoresPadding | android/app/src/main/kotlin/com/example/nereus_abp_app/FastYuvToRgbConverter.kt:55-65 | Chroma planes with the same samples give the same bytes. Bytes between sampled pixels and past the row do not matter. |
| Planes.CopyBytes | android/app/src/main/kotlin/com/example/nereus_abp_app/FastYuvToRgbConverter.kt:45 | The bulk copy replaces exactly `count` bytes at `dstPos` with the source's bytes from `srcPos`. The rest is unchanged. |
| Planes.CopyRow | ios/Runner/AppDelegate.swift:242-245 | One `memcpy` of row `row` extends the copy of the first `row` rows to the first `row + 1` rows. The source row starts at `row * srcStride` and the destination row at `row * bytesPerRow`. |
| Nv21.Nv21SizeFormula | android/app/src/main/kotlin/com/example/nereus_abp_app/FastYuvToRgbConverter.kt:34 | The NV21 array size is `width*height + width*height/2`. The luma takes `width*height` of it. |
| Nv21.ChromaEndFits | android/app/src/main/kotlin/com/example/nereus_abp_app/FastYuvToRgbConverter.kt:50-65 | The last chroma pair ends within the array. For even dimensions it ends exactly at the array's end. |
| Nv21.ChromaEndFormula | android/app/src/main/kotlin/com/example/nereus_abp_app/FastYuvToRgbConverter.kt:53-65 | The chroma pairs end at `width*height + 2*(height/2)*(width/2)`, where the source's `uvPos` finishes. |
| Nv21.Nv21Layout | android/app/src/main/kotlin/com/example/nereus_abp_app/FastYuvToRgbConverter.kt:34-65 | The luma rows and the chroma rows both fit in the NV21 array. |
| Nv21.PackNv21 | android/app/src/main/kotlin/com/example/nereus_abp_app/FastYuvToRgbConverter.kt:42-66 | The packed NV21 bytes. The length is kept; the content is stated by the five lemmas below. |
| Nv21.Nv21LumaAt | android/app/src/main/kotlin/com/example/nereus_abp_app/FastYuvToRgbConverter.kt:43-47 | `nv21[r*width + c] == y[r*yRowStride + c]` for all `r < height` and `c < width`. |
| Nv21.Nv21ChromaAt | android/app/src/main/kotlin/com/example/nereus_abp_app/FastYuvToRgbConverter.kt:55-65 | `nv21[width*height + 2*(r*(width/2)+c)]` is `v[r*vRowStride + c*vPixelStride]`. The next byte is `u[r*uRowStride + c*uPixelStride]`, so V precedes U. |
| Nv21.Nv21TailKept | android/app/src/main/kotlin/com/example/nereus_abp_app/FastYuvToRgbConverter.kt:50-65 | Past the last pair, bytes keep their previous values. Only odd widths or heights leave such a tail. |
| Nv21.Nv21OverwritesAll | android/app/src/main/kotlin/com/example/nereus_abp_app/FastYuvToRgbConverter.kt:36-66 | For even dimensions every byte is rewritten, so a reused array leaks nothing from the previous frame. |
| Nv21.Nv21IgnoresPadding | android/app/src/main/kotlin/com/example/nereus_abp_app/FastYuvToRgbConverter.kt:42-65 | Padded and unpadded planes with the same logical samples give identical NV21 bytes. |
| Nv21.LumaReadable | android/app/src/main/kotlin/com/example/nereus_abp_app/FastYuvToRgbConverter.kt:45 | Every Y-row read is in bounds when `y.size >= (height-1)*yRowStride + width`. |
| Nv21.ChromaReadable | android/app/src/main/kotlin/com/example/nereus_abp_app/FastYuvToRgbConverter.kt:60-64 | Every chroma read is in bounds when the plane covers `(rows-1)*rowStride + (cols-1)*pixelStride + 1` bytes. |
| Nv21.StartContents | android/app/src/main/kotlin/com/example/nereus_abp_app/FastYuvToRgbConverter.kt:36-40 | The bytes packing starts from: the kept array's own bytes when it is reused, zeros in a new array. |
| Nv21.FastYuvToRgbConverter.constructor | android/app/src/main/kotlin/com/example/nereus_abp_app/FastYuvToRgbConverter.kt:17-19 | A new converter has no NV21 array and no allocations. |
| Nv21.FastYuvToRgbConverter.ReserveYuvBuffer | android/app/src/main/kotlin/com/example/nereus_abp_app/FastYuvToRgbConverter.kt:34-40 | The array has size `Nv21Size`. It is the same array when the old one had that size. Otherwise it is a new zero-filled one. |
| Nv21.FastYuvToRgbConverter.Yuv420ToBitmap | android/app/src/main/kotlin/com/example/nereus_abp_app/FastYuvToRgbConverter.kt:21-88 | The reuse rule holds. The array's new content is `PackNv21` of its start contents. The allocations are created only when there were none, sized from this frame; later calls leave them as they are. |
| Nv21.CopyLumaRows | android/app/src/main/kotlin/com/example/nereus_abp_app/FastYuvToRgbConverter.kt:43-47 | The Y loop leaves the array equal to `CopyRows` of its previous content. `pos` ends at `width*height`. |
| Nv21.InterleaveChroma | android/app/src/main/kotlin/com/example/nereus_abp_app/FastYuvToRgbConverter.kt:50-66 | The chroma loops leave the array equal to `InterleaveRows` of its previous content, V plane first. `uvPos` ends at `ChromaEnd`. |
| Nv21.InterleaveChromaRow | android/app/src/main/kotlin/com/example/nereus_abp_app/FastYuvToRgbConverter.kt:56-65 | One pass of the inner loop writes that row's pairs and advances `uvPos` by `2*(width/2)`. |
| Nv12.Nv12PixelBuffer.constructor | ios/Runner/AppDelegate.swift:218-233 | A created buffer has positive dimensions and planes holding all their rows at the allocator's bytes-per-row. |
| Nv12.Nv12PixelBuffer.Layout | ios/Runner/AppDelegate.swift:237-262 | The luma rows, the copied UV rows and the interleaved chroma rows fit in their planes. |
| Nv12.CopyPlaneRows | ios/Runner/AppDelegate.swift:240-247 | The row-by-row `memcpy` loop leaves the plane equal to `CopyRows` of its previous content. |
| Nv12.InterleaveUvRows | ios/Runner/AppDelegate.swift:323-340 | The chroma loop leaves the plane equal to `InterleaveRows` with U first and V second. Both are read with a pixel stride of 1. |
| Nv12.InterleaveUvRow | ios/Runner/AppDelegate.swift:328-338 | One row of the chroma loop writes that row's U,V pairs. |
| Nv12.InterleaveUvPair | ios/Runner/AppDelegate.swift:333-336 | Storing column `col`'s U byte at `col * 2` and its V byte at `col * 2 + 1` extends the row's interleave by one pair. |
| Nv12.CreateNv12PixelBufferFromNv12Planes | ios/Runner/AppDelegate.swift:201-266 | It fails (throws) exactly when creation fails. Otherwise the luma plane is `CopyRows` of `y`, `width` bytes per row. The chroma plane is `CopyRows` of `uv`, `width` bytes of each of `height/2` rows. |
| Nv12.CreateNv12PixelBufferFromYUV420 | ios/Runner/AppDelegate.swift:269-345 | It fails exactly when creation fails. Otherwise the luma is copied as above. The chroma plane is `InterleaveRows` of U then V, `width/2` pairs in each of `height/2` rows. |
| Nv12.PlaneCopyAt | ios/Runner/AppDelegate.swift:240-261 | `dst[r*dstBytesPerRow + c] == src[r*stride + c]` for `r < rows` and `c < width`. |
| Nv12.PlaneCopyKeepsPadding | ios/Runner/AppDelegate.swift:240-261 | Bytes past `width` in each destination row are not written. |
| Nv12.UvPairAt | ios/Runner/AppDelegate.swift:320-341 | `dstUV[r*bpr + 2c] == u[r*uStride + c]` and `dstUV[r*bpr + 2c + 1] == v[r*vStride + c]`. So U precedes V and no pixel stride is applied. |
| Nv12.UvRowKeepsPadding | ios/Runner/AppDelegate.swift:320-341 | Bytes past the `width/2` pairs of each chroma row are not written. |
| Pose.Project | android/app/src/main/kotlin/com/example/nereus_abp_app/MainActivity.kt:100-108 | One point per landmark, in order, each the landmark's `x, y, z`. |
| Pose.Output | ios/Runner/AppDelegate.swift:118-127 | The reply is empty exactly when there is no cached result, it has no pose, or its first pose is empty. Otherwise it has one `x, y, z` per landmark of the first pose, in order. |
| Pose.BuildOutput | android/app/src/main/kotlin/com/example/nereus_abp_app/MainActivity.kt:93-109 | The append loop builds exactly `Output` of the cached result. |
| Pose.Deliver | ios/Runner/AppDelegate.swift:167-180 | A report with a result and no error replaces the cache. An error or a nil result leaves the cache alone. |
| Pose.LastUsable | ios/Runner/AppDelegate.swift:167-196 | There is no usable result exactly when every report is an error or a nil result. |
| Pose.ReplaySnoc | android/app/src/main/kotlin/com/example/nereus_abp_app/MainActivity.kt:133-139 | Delivering one more report after a series is the same as replaying the longer series. |
| Pose.LastWriteWins | android/app/src/main/kotlin/com/example/nereus_abp_app/MainActivity.kt:133-139 | After any series of reports, the cache holds the last usable result. If none was usable, it holds what it held before. |
| Android.IntArgument | android/app/src/main/kotlin/com/example/nereus_abp_app/MainActivity.kt:43-45 | `call.argument<Int>`: absent exactly when the key is absent or null. It reads the value exactly when that value is a 32-bit integer, and then reads that integer. Any other value is the cast exception. |
| Android.LongArgument | android/app/src/main/kotlin/com/example/nereus_abp_app/MainActivity.kt:46 | `call.argument<Long>`: absent exactly when the key is absent or null. It reads the value exactly when that value is a 64-bit integer, and then reads that integer. A value sent as a 32-bit integer is the cast exception. |
| Android.BytesArgument | android/app/src/main/kotlin/com/example/nereus_abp_app/MainActivity.kt:48-50 | `call.argument<ByteArray>`: absent exactly when the key is absent or null. It reads the value exactly when that value is a byte list, and then reads those bytes. |
| Android.ParseArguments | android/app/src/main/kotlin/com/example/nereus_abp_app/MainActivity.kt:43-57 | The result is `None` (the cast exception) exactly when some argument has the wrong type. Otherwise every field is the value read for its key. An absent number defaults to 0 and an absent pixel stride to 1. A plane is null exactly when it is absent. |
| Android.FrameArgumentsKept | android/app/src/main/kotlin/com/example/nereus_abp_app/MainActivity.kt:43-57 | Present, well-typed width, height, timestamp, planes, strides and pixel strides reach the request unchanged. |
| Android.ParseAcceptsWellTyped | android/app/src/main/kotlin/com/example/nereus_abp_app/MainActivity.kt:43-57 | Arguments are read without a cast exception exactly when each one is absent, null, or of the type it is read with. |
| Android.NoArgumentsDefaults | android/app/src/main/kotlin/com/example/nereus_abp_app/MainActivity.kt:43-57 | A call without arguments reads all defaults and no planes. |
| Android.ShortTimestampRejected | android/app/src/main/kotlin/com/example/nereus_abp_app/MainActivity.kt:46 | A timestamp that arrives as a 32-bit integer fails the 64-bit read. |
| Android.Bitmap.constructor | android/app/src/main/kotlin/com/example/nereus_abp_app/MainActivity.kt:69-73 | A bitmap is created only with positive dimensions, and has the dimensions asked for. |
| Android.MainActivity.constructor | android/app/src/main/kotlin/com/example/nereus_abp_app/MainActivity.kt:27-33 | Engine setup creates a fresh converter, then sets up the landmarker with `SetupPoseLandmarker`, which gives it the pose options. There is no cache and no bitmap yet. |
| Android.MainActivity.SetupPoseLandmarker | android/app/src/main/kotlin/com/example/nereus_abp_app/MainActivity.kt:120-143 | It is idempotent: an existing landmarker is kept. Otherwise one is created from `pose_landmarker.task` with live stream, one pose, and 0.5 thresholds. |
| Android.MainActivity.OnResult | android/app/src/main/kotlin/com/example/nereus_abp_app/MainActivity.kt:133-136 | Every result overwrites the cache. |
| Android.MainActivity.OnError | android/app/src/main/kotlin/com/example/nereus_abp_app/MainActivity.kt:137-139 | An error leaves the cache unchanged. |
| Android.MainActivity.OnMethodCall | android/app/src/main/kotlin/com/example/nereus_abp_app/MainActivity.kt:36-117 | Another method gets not-implemented. A wrongly typed argument escapes the handler. A missing plane gets `NO_PLANES`. None of these changes any state: the activity, the converter and the bytes of the NV21 array are all kept. Otherwise the result is `DetectOutcome`. |
| Android.MainActivity.DetectPose | android/app/src/main/kotlin/com/example/nereus_abp_app/MainActivity.kt:64-116 | The `DetectOutcome` rules (summarised after this table). |
| Ios.AsInt | ios/Runner/AppDelegate.swift:49-50 | An argument reads as `Int` exactly when it is present and an integer of either width. The value read is the integer sent. |
| Ios.AsBytes | ios/Runner/AppDelegate.swift:51-52 | An argument reads as typed data exactly when it is present and a byte list. The value read is the bytes sent. |
| Ios.HalfTowardZero | ios/Runner/AppDelegate.swift:74 | `width / 2` rounds toward zero, also for negative widths. |
| Ios.ParseCall | ios/Runner/AppDelegate.swift:41-74 | Another method, or arguments that are not a dictionary, are not handled. A missing or wrongly typed `width`, `height`, `plane0` or `plane1` gives `INVALID_ARGS`. Otherwise the defaults apply: `stride0` and `stride1` default to `width`, `stride2` to `width/2`, and the timestamp to the clock. |
| Ios.FrameArgumentsKept | ios/Runner/AppDelegate.swift:49-74 | When every argument is present and well typed, the request carries exactly the width, height, planes, strides and timestamp that were sent. |
| Ios.RequiredOnlyDefaults | ios/Runner/AppDelegate.swift:59-74 | With only the four required arguments, every default applies and `plane2` is absent, which selects the two-plane builder. |
| Ios.AppDelegate.constructor | ios/Runner/AppDelegate.swift:34-36 | At launch there is no landmarker and no cache. |
| Ios.AppDelegate.SetupPoseLandmarker | ios/Runner/AppDelegate.swift:140-163 | It is idempotent: an existing landmarker is kept. Otherwise one is created with the pose options. |
| Ios.AppDelegate.PoseLandmarkerDidFinishDetection | ios/Runner/AppDelegate.swift:167-180 | The cache becomes `Deliver` of the report: an error or a nil result leaves it unchanged. |
| Ios.AppDelegate.PoseLandmarkerDidFinishDetectionWithResult | ios/Runner/AppDelegate.swift:183-196 | Its contract is the same as the other callback's. |
| Ios.AppDelegate.HandleMethodCall | ios/Runner/AppDelegate.swift:38-133 | A call that is not handled gets not-implemented. Missing required arguments give `INVALID_ARGS`. Neither changes any state. Otherwise the result is `DetectOutcome`. |
| Ios.AppDelegate.DetectPose | ios/Runner/AppDelegate.swift:76-132 | The `DetectOutcome` rules (summarised after this table). |

What `DetectOutcome` states:

- Android (`MainActivity.DetectPose`):
  - The bitmap is reused exactly when its dimensions match the request. Otherwise a new one is created, and a non-positive dimension then gives `POSE_ERROR`. In that case the converter, its allocations and the bytes of its array are untouched.
  - The converter's array follows its reuse rule.
  - An out-of-bounds plane read gives `POSE_ERROR`, with the allocations as they were.
  - Otherwise the array holds `PackNv21` of the request's planes. Existing allocations are kept. On the first frame, the input allocation is made for the array's size and the output allocation for the frame's width and height.
  - A failed conversion or a rejected frame gives `POSE_ERROR`.
  - Otherwise the frame's timestamp is submitted and the reply is `Output` of the result cached before the call.
  - The cache and the landmarker are unchanged throughout.
- iOS (`AppDelegate.DetectPose`):
  - The landmarker is set up if missing.
  - A non-positive dimension gives `POSE_ERROR` with the buffer untouched.
  - Otherwise the luma plane is copied. The chroma plane is interleaved from `plane1` and `plane2` when `plane2` is present, and copied from `plane1` when it is not.
  - A failed conversion or a rejected frame gives `POSE_ERROR`.
  - Otherwise the timestamp is submitted and the reply is `Output` of the cache before the call.

## Left out

- The colour conversion itself: RenderScript's YUV-to-RGB script on Android and Core Image's NV12-to-BGRA render on iOS. Whether it succeeds is a parameter of the handlers, as is whether the landmarker accepts the frame. RenderScript's size checks against the stale first-frame allocations are therefore not modelled.
- MediaPipe: model loading, inference, and the failure of `createFromOptions`. A missing model on iOS hits `fatalError`, which the model does not represent. Android passes the asset name `pose_landmarker.task`. iOS passes the path that `Bundle.main.path(forResource:ofType:)` gives for that file. The model uses the asset name on both platforms. Landmark coordinates are `real`s, and the float thresholds are kept only as option values.
- `CVPixelBufferCreate` internals, locking, and base-address lookup. A created buffer's layout is a parameter of the iOS handler. Its initial contents are unspecified; the model's constructor zero-fills them. Creation is modelled as failing only for a non-positive dimension.
- The iOS builders' empty-data guard (`baseAddress == nil`). It cannot fire when the planes hold the rows the builders read, which the handler requires.
- Ios.AppDelegate.HandleMethodCall: requires the planes to hold every byte the builders read. The source reads them without bounds checks, so a short plane is undefined behaviour there, not a modelled error.
- Android.MainActivity.DetectPose: an out-of-bounds read is modelled as failing before any byte is written. The source may already have written part of the NV21 array when the exception is raised.
- 32-bit overflow of Kotlin `Int` arithmetic (`width * height`, `row * rowStride`): integers are unbounded here.
- Flutter marshalling and the `[weak self]` guard. The codec's mapping of Dart values is modelled only as far as the argument types go: 32-bit int, 64-bit int, bytes, null, other. On iOS, `as? Int` on a bridged `NSNumber` also accepts a Dart double with an integral value. The model files every double under "other", so such an argument gets `INVALID_ARGS` here.
- Threading: the result callbacks run on the landmarker's thread with no lock. They are modelled as separate sequential steps, so last write wins.
- The `Date()` fallback for the iOS timestamp is the `now` parameter.
- Logging, `release()` and `onDestroy` teardown, the unused `rotation` argument and `rotatedBitmap` field, and the messages of errors. Only the error codes are modelled.
