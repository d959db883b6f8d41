/**
 * A concrete camera: one subdevice whose single mode delivers a
 * stereo-interleaved 12-bit raw frame as two 640x480 8-bit infrared
 * streams, with a rule tying the two streams' frame rates together.
 *
 * Stream and format numbers are this scenario's own; the enumerator
 * values of the public header are not part of this model.
 */
module Scenario {

  import opened Wrappers
  import opened CameraInfo
  import opened Selection

  const Infrared: int := 0
  const Infrared2: int := 1
  const FormatY8: int := 2

  const StereoMode: SubdeviceMode := SubdeviceMode(
    0, 640, 480, Y12i, 30,
    [StreamMode(Infrared, 640, 480, FormatY8, 30, 0),
     StreamMode(Infrared2, 640, 480, FormatY8, 30, 1)],
    Y12iToY8, FrameNumberDecoder(0))

  const Camera: StaticCameraInfo := StaticCameraInfo(
    "stereo", [0, 0], [StereoMode],
    [InterstreamRule(Infrared, Infrared2, Fps, 0)],
    [], [])

  const Y8At30: StreamRequest := StreamRequest(true, 640, 480, FormatY8, 30)

  /** Both infrared streams requested at 640x480 Y8 30 fps select the stereo mode. */
  lemma StereoRequestSelectsStereoMode()
    ensures SelectMode(Camera, [Y8At30, Y8At30], 0) == Some(0)
  {
    var requests := [Y8At30, Y8At30];
    assert Offers(StereoMode.streams[0], Infrared, requests[0]);
    assert Offers(StereoMode.streams[1], Infrared2, requests[1]);
    assert Acceptable(Camera, requests, 0, Camera.subdeviceModes[0]);
  }

  /** "Don't care" resolution and format on the second stream still select the stereo mode. */
  lemma WildcardRequestSelectsStereoMode()
    ensures SelectMode(Camera, [Y8At30, StreamRequest(true, 0, 0, FormatAny, 30)], 0) == Some(0)
  {
    var requests := [Y8At30, StreamRequest(true, 0, 0, FormatAny, 30)];
    assert Offers(StereoMode.streams[0], Infrared, requests[0]);
    assert Offers(StereoMode.streams[1], Infrared2, requests[1]);
    assert Acceptable(Camera, requests, 0, Camera.subdeviceModes[0]);
  }

  /** Frame rates that break the rule select nothing, with no fallback. */
  lemma RuleViolationSelectsNothing()
    ensures SelectMode(Camera, [Y8At30, StreamRequest(true, 640, 480, FormatY8, 60)], 0) == None
  {
    var requests := [Y8At30, StreamRequest(true, 640, 480, FormatY8, 60)];
    assert !RuleHolds(Camera.interstreamRules[0], requests);
  }

  /**
   * Rules compare requested values, so a "don't care" frame rate on the
   * second stream is compared as 0 against the first stream's 30 and the
   * equal-fps rule rejects the request.
   */
  lemma WildcardFpsFailsRule()
    ensures SelectMode(Camera, [Y8At30, StreamRequest(true, 0, 0, FormatAny, 0)], 0) == None
  {
    var requests := [Y8At30, StreamRequest(true, 0, 0, FormatAny, 0)];
    assert !RuleHolds(Camera.interstreamRules[0], requests);
  }

  /**
   * The second infrared request exactly as the capture example writes it,
   * everything "don't care", selects the stereo mode once no rule ties
   * the two streams together.
   */
  lemma ExampleWildcardRequestWithoutRule()
    ensures SelectMode(Camera.(interstreamRules := []), [Y8At30, StreamRequest(true, 0, 0, FormatAny, 0)], 0) == Some(0)
  {
    var requests := [Y8At30, StreamRequest(true, 0, 0, FormatAny, 0)];
    var camera := Camera.(interstreamRules := []);
    assert Offers(StereoMode.streams[0], Infrared, requests[0]);
    assert Offers(StereoMode.streams[1], Infrared2, requests[1]);
    assert Acceptable(camera, requests, 0, camera.subdeviceModes[0]);
  }

  /** A request for the other subdevice index finds no mode: the catalog has none for it. */
  lemma OtherSubdeviceSelectsNothing()
    ensures SelectMode(Camera, [Y8At30, Y8At30], 1) == None
  {
  }
}
