/**
 * The static description of a camera model: what each stream request
 * asks for, what each hardware mode exposes, the cross-stream rules, and
 * how a request is matched against an exposed stream mode.
 *
 * Enumerated identifiers (`rs_stream`, `rs_format`) are kept as the raw
 * integers `src/types.h` stores; a stream identifier doubles as the index
 * into the per-stream request array.
 */
module CameraInfo {

  import opened Wrappers

  /** `RS_FORMAT_ANY`, the "don't care" format. */
  const FormatAny: int := 0

  /** The `stream_subdevices` entry of a stream no subdevice can serve. */
  const Unavailable: int := -1

  /** One client request for one logical stream; zero fields mean "don't care". */
  datatype StreamRequest = StreamRequest(enabled: bool, width: int, height: int, format: int, fps: int)

  /** What a hardware mode exposes to the client for one logical stream. */
  datatype StreamMode = StreamMode(stream: int, width: int, height: int, format: int, fps: int, intrinsicsIndex: int)

  /** `uvc::frame_format`, the raw encoding a subdevice advertises, as an opaque tag. */
  datatype FrameFormat = AnyFrame | Yuyv | Y12i | Y8 | Z16 | Invi | Invr | Inri

  /** The unpacking routine attached to a mode, as an opaque tag. */
  datatype Unpacker =
    | StridedImage | Y12iToY8 | Y12iToY16
    | YuyvToRgb | YuyvToRgba | YuyvToBgr | YuyvToBgra

  /** The frame-number decoder attached to a mode, as an opaque tag. */
  datatype FrameNumberDecoder = FrameNumberDecoder(id: nat)

  /** One configurable state of one subdevice and the streams it produces in that state. */
  datatype SubdeviceMode = SubdeviceMode(
    subdevice: int,
    width: int,
    height: int,
    format: FrameFormat,
    fps: int,
    streams: seq<StreamMode>,
    unpacker: Unpacker,
    frameNumberDecoder: FrameNumberDecoder)

  /** The `int` members of `stream_request` a rule may select. */
  datatype Field = Width | Height | Fps

  /** Requires `a.field + delta == b.field`. */
  datatype InterstreamRule = InterstreamRule(a: int, b: int, field: Field, delta: int)

  datatype StaticCameraInfo = StaticCameraInfo(
    name: string,
    streamSubdevices: seq<int>,
    subdeviceModes: seq<SubdeviceMode>,
    interstreamRules: seq<InterstreamRule>,
    presets: seq<seq<StreamRequest>>,
    optionSupported: seq<bool>)

  /** The member a rule's field selector points at. */
  function Get(r: StreamRequest, f: Field): int {
    match f
    case Width => r.width
    case Height => r.height
    case Fps => r.fps
  }

  predicate RuleInRange(rule: InterstreamRule, count: int) {
    0 <= rule.a < count && 0 <= rule.b < count
  }

  /** A rule constrains only pairs of enabled requests. */
  predicate RuleHolds(rule: InterstreamRule, requests: seq<StreamRequest>)
    requires RuleInRange(rule, |requests|)
  {
    var a, b := requests[rule.a], requests[rule.b];
    !a.enabled || !b.enabled || Get(a, rule.field) + rule.delta == Get(b, rule.field)
  }

  /**
   * A rule with either side disabled holds whatever values either side
   * asks for, as long as the enabled flags stay as they are.
   */
  lemma RuleVacuity(rule: InterstreamRule, requests: seq<StreamRequest>)
    requires RuleInRange(rule, |requests|)
    requires !requests[rule.a].enabled || !requests[rule.b].enabled
    ensures forall x: StreamRequest :: x.enabled == requests[rule.a].enabled ==> RuleHolds(rule, requests[rule.a := x])
    ensures forall y: StreamRequest :: y.enabled == requests[rule.b].enabled ==> RuleHolds(rule, requests[rule.b := y])
  {
  }

  /**
   * A request array fits a camera when it has one entry per stream and
   * every rule names two of those streams.
   */
  predicate Fits(info: StaticCameraInfo, requests: seq<StreamRequest>) {
    && |requests| == |info.streamSubdevices|
    && forall i :: 0 <= i < |info.interstreamRules| ==> RuleInRange(info.interstreamRules[i], |requests|)
  }

  /** Evaluates a rule list, rule by rule. */
  function RulesHold(rules: seq<InterstreamRule>, requests: seq<StreamRequest>): (r: bool)
    requires forall i :: 0 <= i < |rules| ==> RuleInRange(rules[i], |requests|)
    ensures r <==> forall i :: 0 <= i < |rules| ==> RuleHolds(rules[i], requests)
    decreases |rules|
  {
    if |rules| == 0 then true
    else RuleHolds(rules[0], requests) && RulesHold(rules[1..], requests)
  }

  predicate FieldMatches(want: int, have: int) {
    want == 0 || want == have
  }

  predicate FormatMatches(want: int, have: int) {
    want == FormatAny || want == have
  }

  /** Every field of the request is either "don't care" or equal to the mode's. */
  predicate Matches(req: StreamRequest, mode: StreamMode) {
    && FieldMatches(req.width, mode.width)
    && FieldMatches(req.height, mode.height)
    && FormatMatches(req.format, mode.format)
    && FieldMatches(req.fps, mode.fps)
  }

  /** Exposing stream `s` in a way that matches `req`. */
  predicate Offers(mode: StreamMode, s: int, req: StreamRequest) {
    mode.stream == s && Matches(req, mode)
  }

  /** A request concerns a call for `subdevice` when it is enabled and its stream maps there. */
  predicate Relevant(info: StaticCameraInfo, requests: seq<StreamRequest>, subdevice: int, s: int)
    requires |requests| == |info.streamSubdevices|
    requires 0 <= s < |requests|
  {
    requests[s].enabled && info.streamSubdevices[s] == subdevice
  }

  /** A stream whose `stream_subdevices` entry is the sentinel is never served by a real subdevice. */
  lemma UnavailableNeverRelevant(info: StaticCameraInfo, requests: seq<StreamRequest>, subdevice: int, s: int)
    requires |requests| == |info.streamSubdevices|
    requires 0 <= s < |requests|
    requires info.streamSubdevices[s] == Unavailable
    requires subdevice != Unavailable
    ensures !Relevant(info, requests, subdevice, s)
  {
  }

  /**
   * The first stream mode at or after `from` that offers stream `s` as
   * `req` asks.
   */
  function FindStreamMode(streams: seq<StreamMode>, s: int, req: StreamRequest, from: nat): (r: Option<nat>)
    requires from <= |streams|
    ensures r.Some? ==> from <= r.value < |streams| && Offers(streams[r.value], s, req)
    ensures r.Some? ==> forall k :: from <= k < r.value ==> !Offers(streams[k], s, req)
    ensures r.None? ==> forall k :: from <= k < |streams| ==> !Offers(streams[k], s, req)
    decreases |streams| - from
  {
    if from == |streams| then None
    else if Offers(streams[from], s, req) then Some(from)
    else FindStreamMode(streams, s, req, from + 1)
  }
}
