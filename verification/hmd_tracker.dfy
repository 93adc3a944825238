/** `NRHMDPoseTracker`: the head tracking mode with its fallback to what the
    device supports, the guarded asynchronous mode change, and the
    lost-tracking / pose-ready edge events. */
module HMDTracker {

  /** `TrackingType`. */
  datatype TrackingType = Tracking6Dof | Tracking3Dof | Tracking0Dof | Tracking0DofStable

  function TrackingTypeCode(t: TrackingType): int {
    match t
    case Tracking6Dof => 0
    case Tracking3Dof => 1
    case Tracking0Dof => 2
    case Tracking0DofStable => 3
  }

  /** The two head-tracking features the device may support. */
  datatype Features = Features(position: bool, rotation: bool)

  /** What a tracking type needs from the device: 6DoF needs position
      tracking, 3DoF and stable 0DoF need rotation tracking. */
  predicate Supports(f: Features, t: TrackingType) {
    match t
    case Tracking6Dof => f.position
    case Tracking3Dof => f.rotation
    case Tracking0Dof => true
    case Tracking0DofStable => f.rotation
  }

  /** `AdaptTrackingType`: a mode the device supports is kept; 6DoF falls
      back to 3DoF when rotation is supported, and every other unsupported
      mode falls back to 0DoF. */
  function AdaptTrackingType(mode: TrackingType, f: Features): (r: TrackingType)
    ensures Supports(f, mode) ==> r == mode
    ensures !Supports(f, mode) ==>
      r == (if mode == Tracking6Dof && f.rotation then Tracking3Dof else Tracking0Dof)
    ensures mode == Tracking0Dof ==> r == Tracking0Dof
  {
    match mode
    case Tracking6Dof =>
      if f.position then Tracking6Dof
      else if f.rotation then Tracking3Dof
      else Tracking0Dof
    case Tracking3Dof => if f.rotation then Tracking3Dof else Tracking0Dof
    case Tracking0DofStable => if f.rotation then Tracking0DofStable else Tracking0Dof
    case Tracking0Dof => mode
  }

  /** The adapted mode is always one the device supports, and adapting again
      changes nothing. */
  lemma AdaptIsSupportedAndIdempotent(mode: TrackingType, f: Features)
    ensures Supports(f, AdaptTrackingType(mode, f))
    ensures AdaptTrackingType(AdaptTrackingType(mode, f), f) == AdaptTrackingType(mode, f)
  {
  }

  /** `LostTrackingReason`: only `NONE` (tracking fine) and `INITIALIZING`
      are singled out by the code; the other reasons are told apart by code. */
  datatype LostTrackingReason = ReasonNone | ReasonInitializing | ReasonOther(code: int)

  /** The tracker's fields: the current mode, the mode-change lock (held
      while a change runs on the worker), the mode being switched to, and the
      last lost-tracking reason seen. */
  datatype Tracker = Tracker(trackingType: TrackingType, modeChangeLock: bool,
                             pending: TrackingType, lastReason: LostTrackingReason)

  function NewTracker(t: TrackingType): (k: Tracker)
    ensures k.trackingType == t && !k.modeChangeLock && k.lastReason == ReasonNone
  {
    Tracker(t, false, t, ReasonNone)
  }

  /** `AutoAdaptTrackingType`: adapts the current mode when auto adaption is on. */
  function AutoAdaptTrackingType(k: Tracker, autoAdapt: bool, f: Features): (k': Tracker)
    ensures autoAdapt ==> Supports(f, k'.trackingType)
    ensures !autoAdapt ==> k' == k
    ensures k'.modeChangeLock == k.modeChangeLock && k'.lastReason == k.lastReason
  {
    AdaptIsSupportedAndIdempotent(k.trackingType, f);
    if autoAdapt then k.(trackingType := AdaptTrackingType(k.trackingType, f)) else k
  }

  /** The result handed to the mode-change callback. */
  datatype ModeChangedResult = ModeChangedResult(success: bool, trackingType: TrackingType)

  /** An event raised by a mode change. */
  datatype ModeEvent = ChangingMode(from: TrackingType, to: TrackingType) | ModeChanged(result: ModeChangedResult)

  /** `ChangeMode` as on the device: refused, with an immediate failed result
      carrying the current mode, when the target is the current mode or a
      change is already running; otherwise announces the change, takes the
      lock and leaves the switch to the worker (see `FinishModeChange`). */
  function ChangeMode(k: Tracker, target: TrackingType): (r: (bool, seq<ModeEvent>, Tracker))
    ensures !r.0 <==> target == k.trackingType || k.modeChangeLock
    ensures !r.0 ==> r.1 == [ModeChanged(ModeChangedResult(false, k.trackingType))] && r.2 == k
    ensures r.0 ==>
      && r.1 == [ChangingMode(k.trackingType, target)]
      && r.2 == k.(modeChangeLock := true, pending := target)
  {
    if target == k.trackingType || k.modeChangeLock then
      (false, [ModeChanged(ModeChangedResult(false, k.trackingType))], k)
    else
      (true, [ChangingMode(k.trackingType, target)], k.(modeChangeLock := true, pending := target))
  }

  /** The worker's continuation: the native switch reports `success`; the
      mode becomes the target only on success, the callback gets the result
      and the lock is released. Without a running change nothing happens. */
  function FinishModeChange(k: Tracker, success: bool): (r: (seq<ModeEvent>, Tracker))
    ensures !k.modeChangeLock ==> r == ([], k)
    ensures k.modeChangeLock ==>
      && !r.1.modeChangeLock
      && r.1.trackingType == (if success then k.pending else k.trackingType)
      && r.0 == [ModeChanged(ModeChangedResult(success, r.1.trackingType))]
  {
    if !k.modeChangeLock then ([], k)
    else
      var t := if success then k.pending else k.trackingType;
      ([ModeChanged(ModeChangedResult(success, t))], k.(trackingType := t, modeChangeLock := false))
  }

  /** A second request while a change runs is refused with the unchanged
      mode; once the first completes successfully, the mode is its target. */
  lemma ChangeIsExclusive(k: Tracker, first: TrackingType, second: TrackingType)
    requires !k.modeChangeLock && first != k.trackingType
    ensures var (ok1, _, k1) := ChangeMode(k, first);
      var (ok2, e2, k2) := ChangeMode(k1, second);
      ok1 && !ok2 && e2 == [ModeChanged(ModeChangedResult(false, k.trackingType))]
      && FinishModeChange(k2, true).1.trackingType == first
  {
  }

  datatype PoseEvent = LostTracking | PoseReady

  predicate IsLost(r: LostTrackingReason) {
    r != ReasonNone
  }

  /** `CheckHMDPoseState`: skipped while the session is not running, in a
      0DoF mode or during a mode change. Otherwise, on a change of reason,
      raises the lost event when tracking was fine and now is not, the ready
      event in the opposite case, and remembers the reason. */
  function CheckHMDPoseState(k: Tracker, sessionRunning: bool, current: LostTrackingReason): (r: (seq<PoseEvent>, Tracker))
    ensures var skip := !sessionRunning || k.trackingType == Tracking0Dof
      || k.trackingType == Tracking0DofStable || k.modeChangeLock;
      && (skip ==> r == ([], k))
      && (!skip ==> r.1 == k.(lastReason := current))
      && (!skip ==> (r.0 == [LostTracking] <==> !IsLost(k.lastReason) && IsLost(current)))
      && (!skip ==> (r.0 == [PoseReady] <==> IsLost(k.lastReason) && !IsLost(current)))
    ensures |r.0| <= 1
  {
    if !sessionRunning || k.trackingType == Tracking0Dof || k.trackingType == Tracking0DofStable || k.modeChangeLock then
      ([], k)
    else if current != k.lastReason then
      var e := if IsLost(current) && !IsLost(k.lastReason) then [LostTracking]
        else if !IsLost(current) && IsLost(k.lastReason) then [PoseReady]
        else [];
      (e, k.(lastReason := current))
    else ([], k)
  }

  /** The pose events over a run of frames, each frame giving whether the
      session runs and the reported reason. */
  function PoseRun(k: Tracker, frames: seq<(bool, LostTrackingReason)>): (r: (seq<PoseEvent>, Tracker))
    ensures r.1.trackingType == k.trackingType && r.1.modeChangeLock == k.modeChangeLock
    decreases |frames|
  {
    if |frames| == 0 then ([], k)
    else
      var (e, k1) := CheckHMDPoseState(k, frames[0].0, frames[0].1);
      var (rest, k2) := PoseRun(k1, frames[1..]);
      (e + rest, k2)
  }

  predicate Alternating(es: seq<PoseEvent>) {
    forall i :: 0 <= i < |es| - 1 ==> es[i] != es[i + 1]
  }

  /** Lost and ready events strictly alternate, the first one being the
      opposite of the tracker's starting condition and the last one agreeing
      with where the run leaves it. */
  lemma {:induction false} PoseEventsAlternate(k: Tracker, frames: seq<(bool, LostTrackingReason)>)
    ensures var (es, k') := PoseRun(k, frames);
      && Alternating(es)
      && (|es| > 0 ==> (es[0] == LostTracking <==> !IsLost(k.lastReason)))
      && (|es| > 0 ==> (es[|es| - 1] == LostTracking <==> IsLost(k'.lastReason)))
      && (|es| == 0 ==> (IsLost(k'.lastReason) <==> IsLost(k.lastReason)))
    decreases |frames|
  {
    if |frames| > 0 {
      var (e, k1) := CheckHMDPoseState(k, frames[0].0, frames[0].1);
      var (rest, k2) := PoseRun(k1, frames[1..]);
      PoseEventsAlternate(k1, frames[1..]);
      assert PoseRun(k, frames) == (e + rest, k2);
      PoseStep(k, frames[0].0, frames[0].1);
      if |e| == 0 {
        assert e + rest == rest;
      } else {
        assert e + rest == [e[0]] + rest;
        ConsAlternating(e[0], rest);
        if |rest| > 0 {
          assert (e + rest)[|e + rest| - 1] == rest[|rest| - 1];
        }
      }
    }
  }

  /** One frame either raises nothing and keeps whether tracking is lost, or
      raises the event that flips it. */
  lemma PoseStep(k: Tracker, sessionRunning: bool, current: LostTrackingReason)
    ensures var (e, k1) := CheckHMDPoseState(k, sessionRunning, current);
      && (|e| == 0 ==> (IsLost(k1.lastReason) <==> IsLost(k.lastReason)))
      && (|e| == 1 ==> (e[0] == LostTracking <==> !IsLost(k.lastReason)))
      && (|e| == 1 ==> (e[0] == LostTracking <==> IsLost(k1.lastReason)))
  {
  }

  /** An event in front of an alternating run that starts with the other
      event keeps it alternating. */
  lemma ConsAlternating(e: PoseEvent, rest: seq<PoseEvent>)
    requires Alternating(rest)
    requires |rest| > 0 ==> rest[0] != e
    ensures Alternating([e] + rest)
  {
    var es := [e] + rest;
    forall i | 0 <= i < |es| - 1
      ensures es[i] != es[i + 1]
    {
      if i > 0 {
        assert es[i] == rest[i - 1] && es[i + 1] == rest[i];
      }
    }
  }
}
