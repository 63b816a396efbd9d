/**
 * What both platforms share about pose detection: the landmarker's options,
 * the shape of a detection result, the single-slot cache of the latest
 * result that the landmarker's callbacks fill, and the reply built from it
 * (the x, y, z of every landmark of the first detected pose).
 */
module Pose {
  import opened Wrappers

  /** One landmark of a detected pose, in normalised image coordinates; its visibility and presence scores are not sent back (see `ToPoint`). */
  datatype Landmark = Landmark(x: real, y: real, z: real, visibility: Option<real>, presence: Option<real>)

  /** The `{"x", "y", "z"}` map sent back over the channel for one landmark. */
  datatype Point = Point(x: real, y: real, z: real)

  /** A detection result: the landmarks of each detected pose, first pose first. */
  datatype PoseLandmarkerResult = PoseLandmarkerResult(landmarks: seq<seq<Landmark>>)

  datatype RunningMode = Image | Video | LiveStream

  /** The options the landmarker is built with (the callbacks it reports to are the model's methods). */
  datatype LandmarkerOptions = LandmarkerOptions(
    modelAssetPath: string,
    runningMode: RunningMode,
    numPoses: nat,
    minPoseDetectionConfidence: real,
    minPosePresenceConfidence: real)

  /**
   * Both platforms load the bundled pose model and run it on a live stream,
   * looking for one pose. Android names the asset `pose_landmarker.task`;
   * iOS passes the bundle path of that same file, which is not modelled.
   */
  const PoseOptions := LandmarkerOptions("pose_landmarker.task", LiveStream, 1, 0.5, 0.5)

  /** A landmarker as far as the handlers see it: created once, from its options. */
  datatype PoseLandmarker = PoseLandmarker(options: LandmarkerOptions)

  // ---------------------------------------------------------------------------
  // The reply

  function ToPoint(lm: Landmark): Point
  {
    Point(lm.x, lm.y, lm.z)
  }

  /** The points of a pose, in order: one `{x, y, z}` per landmark. */
  function Project(pose: seq<Landmark>): (out: seq<Point>)
    ensures |out| == |pose|
    ensures forall i :: 0 <= i < |pose| ==> out[i] == ToPoint(pose[i])
  {
    if |pose| == 0 then []
    else Project(pose[..|pose| - 1]) + [ToPoint(pose[|pose| - 1])]
  }

  /** The cached result has a first pose. */
  predicate HasPose(latest: Option<PoseLandmarkerResult>)
  {
    latest.Some? && |latest.value.landmarks| > 0
  }

  /**
   * The reply to a detection request: the points of the first pose of the
   * cached result, or nothing when there is no result or it has no pose.
   */
  function Output(latest: Option<PoseLandmarkerResult>): (out: seq<Point>)
    ensures out == [] <==> !HasPose(latest) || latest.value.landmarks[0] == []
    ensures HasPose(latest) ==>
              |out| == |latest.value.landmarks[0]| &&
              forall i :: 0 <= i < |out| ==> out[i] == ToPoint(latest.value.landmarks[0][i])
  {
    if HasPose(latest) then Project(latest.value.landmarks[0]) else []
  }

  /** The reply loop: one point appended per landmark of the first pose. */
  method BuildOutput(latest: Option<PoseLandmarkerResult>) returns (output: seq<Point>)
    ensures output == Output(latest)
  {
    output := [];
    if latest.Some? && |latest.value.landmarks| > 0 {
      var pose := latest.value.landmarks[0];
      var i := 0;
      while i < |pose|
        invariant 0 <= i <= |pose|
        invariant output == Project(pose[..i])
      {
        assert pose[..i + 1][..i] == pose[..i];
        output := output + [ToPoint(pose[i])];
        i := i + 1;
      }
      assert pose[..|pose|] == pose;
    }
  }

  // ---------------------------------------------------------------------------
  // The latest-result cache

  /** One report from the landmarker: a result, or none, and whether it reported an error. */
  datatype Callback = Callback(result: Option<PoseLandmarkerResult>, failed: bool)
  {
    /** The report carries a result that the cache takes. */
    predicate Usable()
    {
      !failed && result.Some?
    }
  }

  /** The cache after one report: a usable result replaces it, anything else leaves it alone. */
  function Deliver(latest: Option<PoseLandmarkerResult>, cb: Callback): (r: Option<PoseLandmarkerResult>)
    ensures cb.Usable() ==> r == cb.result
    ensures !cb.Usable() ==> r == latest
  {
    if cb.Usable() then cb.result else latest
  }

  /** The cache after a series of reports, delivered in order. */
  function Replay(latest: Option<PoseLandmarkerResult>, cbs: seq<Callback>): Option<PoseLandmarkerResult>
    decreases |cbs|
  {
    if |cbs| == 0 then latest else Replay(Deliver(latest, cbs[0]), cbs[1..])
  }

  /** The result of the last usable report, if any. */
  function LastUsable(cbs: seq<Callback>): (r: Option<PoseLandmarkerResult>)
    ensures r.None? <==> forall i :: 0 <= i < |cbs| ==> !cbs[i].Usable()
  {
    if |cbs| == 0 then None
    else if cbs[|cbs| - 1].Usable() then cbs[|cbs| - 1].result
    else LastUsable(cbs[..|cbs| - 1])
  }

  /** Replaying one more report is delivering it after the others. */
  lemma {:induction false} ReplaySnoc(latest: Option<PoseLandmarkerResult>, cbs: seq<Callback>, cb: Callback)
    ensures Replay(latest, cbs + [cb]) == Deliver(Replay(latest, cbs), cb)
    decreases |cbs|
  {
    if |cbs| == 0 {
      assert (cbs + [cb])[1..] == [];
    } else {
      assert (cbs + [cb])[1..] == cbs[1..] + [cb];
      ReplaySnoc(Deliver(latest, cbs[0]), cbs[1..], cb);
    }
  }

  /**
   * Last write wins: after any series of reports the cache holds the result
   * of the last usable one, or what it held before when none was usable.
   */
  lemma {:induction false} LastWriteWins(latest: Option<PoseLandmarkerResult>, cbs: seq<Callback>)
    ensures Replay(latest, cbs) == (if LastUsable(cbs).Some? then LastUsable(cbs) else latest)
    decreases |cbs|
  {
    if |cbs| > 0 {
      var init := cbs[..|cbs| - 1];
      assert cbs == init + [cbs[|cbs| - 1]];
      ReplaySnoc(latest, init, cbs[|cbs| - 1]);
      LastWriteWins(latest, init);
    }
  }
}
