/** `NRVideoCapture`: the resolutions and frame rates it offers, and the
    guards around starting and stopping a recording. The capture context's
    start and stop calls are inputs saying whether they return or throw. */
module VideoCapture {
  import CSharp
  import EncodeConfig

  datatype Resolution = Resolution(width: int, height: int, refreshRate: int)

  /** `SupportedResolutions`: the RGB camera's resolution when the device has
      one (1280x720 otherwise), then half and one and a half times it, each
      computed with C#'s truncating integer division. */
  function SupportedResolutions(hasRgbCamera: bool, deviceWidth: int, deviceHeight: int): (rs: seq<Resolution>)
    ensures |rs| == 3
    ensures forall i :: 0 <= i < 3 ==> rs[i].refreshRate == EncodeConfig.RecordFpsDefault
    ensures hasRgbCamera ==> rs[0].width == deviceWidth && rs[0].height == deviceHeight
    ensures !hasRgbCamera ==> rs[0].width == 1280 && rs[0].height == 720
    ensures rs[0].width >= 0 ==> 2 * rs[1].width <= rs[0].width < 2 * rs[1].width + 2
    ensures rs[0].height >= 0 ==> 2 * rs[1].height <= rs[0].height < 2 * rs[1].height + 2
    ensures rs[0].width >= 0 ==> 2 * rs[2].width <= 3 * rs[0].width < 2 * rs[2].width + 2
    ensures rs[0].height >= 0 ==> 2 * rs[2].height <= 3 * rs[0].height < 2 * rs[2].height + 2
  {
    var w := if hasRgbCamera then deviceWidth else 1280;
    var h := if hasRgbCamera then deviceHeight else 720;
    var fps := EncodeConfig.RecordFpsDefault;
    [Resolution(w, h, fps),
     Resolution(CSharp.Div(w, 2), CSharp.Div(h, 2), fps),
     Resolution(CSharp.Div(w * 3, 2), CSharp.Div(h * 3, 2), fps)]
  }

  /** Without an RGB camera the offered sizes are 1280x720, 640x360 and
      1920x1080. */
  lemma DefaultResolutions()
    ensures var rs := SupportedResolutions(false, 0, 0);
      rs[0] == Resolution(1280, 720, 30) && rs[1] == Resolution(640, 360, 30) && rs[2] == Resolution(1920, 1080, 30)
  {
  }

  /** `GetSupportedFrameRatesForResolution`: whatever the resolution, only
      the default recording rate. */
  function GetSupportedFrameRatesForResolution(r: Resolution): (rates: seq<int>)
    ensures rates == [EncodeConfig.RecordFpsDefault]
  {
    [EncodeConfig.RecordFpsDefault]
  }

  /** `CaptureResultType`. */
  datatype CaptureResultType = Success | UnknownError

  /** `VideoCaptureResult.success`. */
  predicate IsSuccess(t: CaptureResultType) {
    t == Success
  }

  /** What a start or stop call does: the new recording flag, the result
      handed to the callback, and whether the capture context's exception is
      rethrown after the callback. */
  datatype CallOutcome = CallOutcome(isRecording: bool, callback: CaptureResultType, rethrown: bool)

  /** `StartRecordingAsync`: refused with an unknown error while already
      recording; otherwise recording starts when the capture context starts,
      and when it throws the callback gets an unknown error, the exception
      is rethrown and the flag stays clear. */
  function StartRecording(isRecording: bool, contextStarts: bool): (o: CallOutcome)
    ensures isRecording ==> o == CallOutcome(true, UnknownError, false)
    ensures IsSuccess(o.callback) <==> !isRecording && contextStarts
    ensures o.isRecording <==> isRecording || contextStarts
    ensures o.rethrown <==> !isRecording && !contextStarts
  {
    if isRecording then CallOutcome(true, UnknownError, false)
    else if contextStarts then CallOutcome(true, Success, false)
    else CallOutcome(false, UnknownError, true)
  }

  /** `StopRecordingAsync`: refused with an unknown error when not
      recording; a stop that returns clears the flag, one that throws leaves
      it set and is rethrown. */
  function StopRecording(isRecording: bool, contextStops: bool): (o: CallOutcome)
    ensures !isRecording ==> o == CallOutcome(false, UnknownError, false)
    ensures IsSuccess(o.callback) <==> isRecording && contextStops
    ensures o.isRecording <==> isRecording && !contextStops
    ensures o.rethrown <==> isRecording && !contextStops
  {
    if !isRecording then CallOutcome(false, UnknownError, false)
    else if contextStops then CallOutcome(false, Success, false)
    else CallOutcome(true, UnknownError, true)
  }

  /** A start followed by a stop, both succeeding, leaves the capture idle
      again; a second start in between is refused without effect. */
  lemma StartStartStop()
    ensures var s1 := StartRecording(false, true);
      var s2 := StartRecording(s1.isRecording, true);
      var s3 := StopRecording(s2.isRecording, true);
      IsSuccess(s1.callback) && !IsSuccess(s2.callback) && s2.isRecording
      && IsSuccess(s3.callback) && !s3.isRecording
  {
  }

  /** From idle, a start and a stop that both succeed return the capture to
      idle; a start that fails leaves it idle and the stop is refused. */
  lemma StartStopFromIdle(contextStarts: bool, contextStops: bool)
    ensures var s := StartRecording(false, contextStarts);
      var t := StopRecording(s.isRecording, contextStops);
      && (contextStarts && contextStops ==> IsSuccess(s.callback) && IsSuccess(t.callback) && !t.isRecording)
      && (!contextStarts ==> !s.isRecording && s.rethrown && t == CallOutcome(false, UnknownError, false))
  {
  }

  /** A start is refused (unknown error, nothing rethrown, still recording)
      exactly when a recording is already running; a stop is refused exactly
      when none is. */
  lemma RefusedExactlyWhenInWrongState(isRecording: bool, contextWorks: bool)
    ensures StartRecording(isRecording, contextWorks) == CallOutcome(true, UnknownError, false) <==> isRecording
    ensures StopRecording(isRecording, contextWorks) == CallOutcome(false, UnknownError, false) <==> !isRecording
  {
  }
}
