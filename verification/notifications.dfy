/** `NRNotificationListener`: notifications (low battery, lost tracking,
    native errors) raise messages at a level; messages at or above the
    listener's level are queued and shown one at a time, each holding the
    queue for a while that depends on its level. */
module Notifications {
  import opened Wrappers
  import KernalErrors

  /** `NRNotificationListener.Level`, in its declared order. */
  datatype Level = All | Low | Middle | High | Off {
    function Ordinal(): (r: nat)
      ensures r <= 4
    {
      match this
      case All => 0
      case Low => 1
      case Middle => 2
      case High => 3
      case Off => 4
    }
  }

  /** The notification classes. */
  datatype NotificationKind = LowPowerKind | SlamStateKind | NativeErrorKind

  /** A notification object: its identity and class. */
  datatype Notification = Notification(id: nat, kind: NotificationKind)

  /** A queued message. */
  datatype Msg = Msg(notification: Notification, level: Level)

  // ----- low power -----

  /** `LowPowerNotification.PowerState`. */
  datatype PowerState = Full | MiddlePower | LowPower

  /** `GetStateByValue`: below 0.3 is low, below 0.4 middle, anything else
      full. */
  function PowerStateOf(battery: real): (r: PowerState)
    ensures r == LowPower <==> battery < 0.3
    ensures r == MiddlePower <==> 0.3 <= battery < 0.4
    ensures r == Full <==> battery >= 0.4
  {
    if battery < 0.3 then LowPower
    else if battery < 0.4 then MiddlePower
    else Full
  }

  /** `LowPowerNotification.UpdateState`: on a change of power state, a
      drop to low triggers at High and a drop to middle at Middle; a
      return to full triggers nothing. The new state is remembered. */
  function UpdatePowerState(current: PowerState, battery: real): (r: (PowerState, Option<Level>))
    ensures r.0 == PowerStateOf(battery)
    ensures r.1.Some? <==> PowerStateOf(battery) != current && PowerStateOf(battery) != Full
    ensures r.1 == Some(High) <==> current != LowPower && battery < 0.3
    ensures r.1 == Some(Middle) <==> current != MiddlePower && 0.3 <= battery < 0.4
  {
    var state := PowerStateOf(battery);
    if state != current then
      (state, if state == LowPower then Some(High) else if state == MiddlePower then Some(Middle) else None)
    else (current, None)
  }

  /** A battery that stays in one band triggers at most once. */
  lemma PowerTriggersOncePerBand(current: PowerState, b1: real, b2: real)
    requires PowerStateOf(b1) == PowerStateOf(b2)
    ensures UpdatePowerState(UpdatePowerState(current, b1).0, b2).1 == None
  {
  }

  // ----- slam state -----

  /** `SlamStateNotification.SlamState`. */
  datatype SlamState = NoSlamState | LostTracking | TrackingReady

  /** `OnHMDLostTracking`: triggers at Middle only when entering the lost
      state. */
  function OnHMDLostTracking(current: SlamState): (r: (SlamState, Option<Level>))
    ensures r.0 == LostTracking
    ensures r.1.Some? <==> current != LostTracking
    ensures r.1.Some? ==> r.1.value == Middle
  {
    if current != LostTracking then (LostTracking, Some(Middle)) else (current, None)
  }

  /** `OnHMDPoseReady`: records the ready state without triggering. */
  function OnHMDPoseReady(current: SlamState): (r: SlamState)
    ensures r == TrackingReady
  {
    TrackingReady
  }

  /** Losing tracking twice in a row notifies once; losing it again after
      the pose is back notifies again. */
  lemma LostTrackingNotifiesOnEntry(current: SlamState)
    ensures OnHMDLostTracking(OnHMDLostTracking(current).0).1 == None
    ensures OnHMDLostTracking(OnHMDPoseReady(OnHMDLostTracking(current).0)).1 == Some(Middle)
  {
  }

  // ----- native errors -----

  /** The three error classes the native error notification reacts to. */
  predicate IsNotifiedError(e: KernalErrors.KernalError) {
    e.cls in {KernalErrors.RGBCameraDeviceNotFindError, KernalErrors.PermissionDenyError,
              KernalErrors.UnSupportedHandtrackingCalculationError}
  }

  /** `NativeErrorNotification.OnSessionError`: remembers the error and
      triggers at High for the three notified classes. */
  function OnSessionError(e: KernalErrors.KernalError): (r: Option<Level>)
    ensures r.Some? <==> IsNotifiedError(e)
    ensures r.Some? ==> r.value == High
  {
    if IsNotifiedError(e) then Some(High) else None
  }

  const RGBCameraDeviceNotFindErrorTip: string := "Please check the FAQ on the official website to enable the RGB Camera."
  const UnSupportedHandtrackingCalculationErrorTip: string := "The device in use does not support hand tracking calculation."

  /** `ErrorTitle`: a fixed title for the three notified classes, the
      error's type name otherwise. */
  function ErrorTitle(e: KernalErrors.KernalError, typeName: string): (r: string)
    ensures e.cls == KernalErrors.RGBCameraDeviceNotFindError ==> r == "RGBCamera is disabled"
    ensures e.cls == KernalErrors.PermissionDenyError ==> r == "Permission Deny"
    ensures e.cls == KernalErrors.UnSupportedHandtrackingCalculationError ==> r == "Not support hand tracking calculation"
    ensures !IsNotifiedError(e) ==> r == typeName
  {
    match e.cls
    case RGBCameraDeviceNotFindError => "RGBCamera is disabled"
    case PermissionDenyError => "Permission Deny"
    case UnSupportedHandtrackingCalculationError => "Not support hand tracking calculation"
    case _ => typeName
  }

  /** `ErrorContent`: a fixed tip for the camera and hand-tracking errors,
      the error's message otherwise (a permission error included). */
  function ErrorContent(e: KernalErrors.KernalError): (r: string)
    ensures e.cls == KernalErrors.RGBCameraDeviceNotFindError ==> r == RGBCameraDeviceNotFindErrorTip
    ensures e.cls == KernalErrors.UnSupportedHandtrackingCalculationError ==> r == UnSupportedHandtrackingCalculationErrorTip
    ensures e.cls !in {KernalErrors.RGBCameraDeviceNotFindError, KernalErrors.UnSupportedHandtrackingCalculationError} ==>
      r == KernalErrors.GetErrorMsg(e)
  {
    if e.cls == KernalErrors.RGBCameraDeviceNotFindError then RGBCameraDeviceNotFindErrorTip
    else if e.cls == KernalErrors.UnSupportedHandtrackingCalculationError then UnSupportedHandtrackingCalculationErrorTip
    else KernalErrors.GetErrorMsg(e)
  }

  // ----- the listener -----

  /** The window prefab bound to a notification (`None` for a missing
      prefab). */
  type Window = Option<nat>

  /** How long a shown window stays, in half seconds (`TipsLastTime`: 3.5 s
      for High, 2.5 s for Middle, 1.5 s for Low). `All` and `Off` have no
      entry. */
  function TipsHalfSeconds(level: Level): (r: Option<nat>)
    ensures r.Some? <==> level in {Low, Middle, High}
    ensures r.Some? ==> r.value % 2 == 1 && r.value >= 3
    ensures r.Some? ==> 3 <= r.value <= 7
  {
    match level
    case High => Some(7)
    case Middle => Some(5)
    case Low => Some(3)
    case _ => None
  }

  /** A higher level holds the queue longer. */
  lemma HigherLevelsLockLonger(a: Level, b: Level)
    requires TipsHalfSeconds(a).Some? && TipsHalfSeconds(b).Some?
    ensures a.Ordinal() < b.Ordinal() <==> TipsHalfSeconds(a).value < TipsHalfSeconds(b).value
  {
  }

  /** The listener: its level, bound notifications, queue, remaining lock
      (in half seconds; every value it takes is a multiple of one half, so
      the comparison with `float.Epsilon` is a comparison with zero), and
      the time since the last update. */
  datatype Listener = Listener(notifLevel: Level, windows: map<Notification, Window>, queue: seq<Msg>,
                               lockHalves: int, timeLast: real)

  /** A fresh listener: level `All`, nothing bound or queued. */
  const NewListener: Listener := Listener(All, map[], [], 0, 0.0)

  /** `BindNotificationWindow`: a notification already bound keeps its
      window (the call logs an error). */
  function BindNotificationWindow(l: Listener, n: Notification, w: Window): (r: Listener)
    ensures n in r.windows
    ensures n in l.windows ==> r == l
    ensures n !in l.windows ==> r.windows == l.windows[n := w] && r.queue == l.queue
  {
    if n in l.windows then l else l.(windows := l.windows[n := w])
  }

  /** `ClearAll`: sets the level to `Off`. */
  function ClearAll(l: Listener): (r: Listener)
    ensures r.notifLevel == Off && r.queue == l.queue && r.windows == l.windows
  {
    l.(notifLevel := Off)
  }

  /** `Dispath`: queues the message when its level is at least the
      listener's level. */
  function Dispatch(l: Listener, n: Notification, lev: Level): (r: Listener)
    ensures lev.Ordinal() >= l.notifLevel.Ordinal() ==> r.queue == l.queue + [Msg(n, lev)]
    ensures lev.Ordinal() < l.notifLevel.Ordinal() ==> r.queue == l.queue
    ensures r.notifLevel == l.notifLevel && r.windows == l.windows && r.lockHalves == l.lockHalves
  {
    if lev.Ordinal() >= l.notifLevel.Ordinal() then l.(queue := l.queue + [Msg(n, lev)]) else l
  }

  /** After `ClearAll`, even a High message is dropped. */
  lemma ClearAllDropsHigh(l: Listener, n: Notification)
    ensures Dispatch(ClearAll(l), n, High).queue == l.queue
  {
  }

  /** Dispatching a sequence of messages in order. */
  function DispatchAll(l: Listener, msgs: seq<Msg>): (r: Listener)
    ensures r.notifLevel == l.notifLevel && r.windows == l.windows && r.lockHalves == l.lockHalves
    ensures r.timeLast == l.timeLast
    ensures |r.queue| >= |l.queue| && r.queue[..|l.queue|] == l.queue
    decreases |msgs|
  {
    if |msgs| == 0 then l
    else
      var next := Dispatch(l, msgs[0].notification, msgs[0].level);
      var r := DispatchAll(next, msgs[1..]);
      assert r.queue[..|l.queue|] == r.queue[..|next.queue|][..|l.queue|];
      r
  }

  /** The accepted messages, in order. */
  function Accepted(level: Level, msgs: seq<Msg>): (r: seq<Msg>)
    ensures forall k :: 0 <= k < |r| ==> r[k] in msgs && r[k].level.Ordinal() >= level.Ordinal()
    ensures |r| <= |msgs|
  {
    if |msgs| == 0 then []
    else (if msgs[0].level.Ordinal() >= level.Ordinal() then [msgs[0]] else []) + Accepted(level, msgs[1..])
  }

  /** Dispatching appends exactly the accepted messages, in order, behind
      those already queued. */
  lemma {:induction false} DispatchAllQueuesAccepted(l: Listener, msgs: seq<Msg>)
    ensures DispatchAll(l, msgs).queue == l.queue + Accepted(l.notifLevel, msgs)
    decreases |msgs|
  {
    if |msgs| > 0 {
      var next := Dispatch(l, msgs[0].notification, msgs[0].level);
      DispatchAllQueuesAccepted(next, msgs[1..]);
    }
  }

  /** What showing a message does: the window instantiated from the bound
      prefab, its level, how long it stays (`None`: until confirmed) and
      whether confirming it quits the app. */
  datatype Shown = Shown(window: nat, level: Level, halfSeconds: Option<nat>, quitOnConfirm: bool)

  /** Exceptions of the update: a message for an unbound notification, or
      a level with no duration entry. */
  datatype ListenerError = KeyNotFound

  /** `OperateNotificationMsg`: a High low-power message stays until
      confirmed and quits the app when confirmed; every other stays its
      level's time. A missing prefab shows nothing. */
  function OperateNotificationMsg(l: Listener, msg: Msg): (r: Result<Option<Shown>, ListenerError>)
    ensures r.Success? <==> msg.notification in l.windows && TipsHalfSeconds(msg.level).Some?
    ensures r.Success? ==> (r.value.Some? <==> l.windows[msg.notification].Some?)
    ensures r.Success? && r.value.Some? ==>
      var lowHigh := msg.notification.kind == LowPowerKind && msg.level == High;
      && r.value.value.level == msg.level
      && r.value.value.quitOnConfirm == lowHigh
      && (r.value.value.halfSeconds.None? <==> lowHigh)
  {
    if msg.notification !in l.windows then Failure(KeyNotFound)
    else
      var duration :- (match TipsHalfSeconds(msg.level) case Some(d) => Success(d) case None => Failure(KeyNotFound));
      var lowHigh := msg.notification.kind == LowPowerKind && msg.level == High;
      match l.windows[msg.notification]
      case None => Success(None)
      case Some(w) => Success(Some(Shown(w, msg.level, if lowHigh then None else Some(duration), lowHigh)))
  }

  /** `Update`, one frame: below one second since the last update nothing
      happens. Otherwise the bound notifications' state updates dispatch
      `triggered` (in dictionary order); then, with the lock expired, the
      oldest queued message is dequeued, shown, and locks the queue for its
      time, and with the lock running, one second is taken off it. A
      message that cannot be shown throws after it was dequeued, so the
      listener comes back without it and with the lock still expired. */
  function Update(l: Listener, deltaTime: real, triggered: seq<Msg>): (r: (Listener, Result<Option<Shown>, ListenerError>))
    ensures l.timeLast + deltaTime < 1.0 ==> r == (l.(timeLast := l.timeLast + deltaTime), Success(None))
    ensures l.timeLast + deltaTime >= 1.0 && l.lockHalves > 0 ==>
      r.1 == Success(None) && r.0.lockHalves == l.lockHalves - 2
      && r.0.queue == l.queue + Accepted(l.notifLevel, triggered)
    ensures r.1.Success? && r.1.value.Some? ==>
      var q := l.queue + Accepted(l.notifLevel, triggered);
      && l.lockHalves <= 0 && |q| > 0
      && r.1.value.value.level == q[0].level
      && r.0.queue == q[1..]
      && TipsHalfSeconds(q[0].level).Some?
      && r.0.lockHalves == TipsHalfSeconds(q[0].level).value
    ensures var q := l.queue + Accepted(l.notifLevel, triggered);
      r.1.Failure? <==>
        (l.timeLast + deltaTime >= 1.0 && l.lockHalves <= 0 && |q| > 0
         && !(q[0].notification in l.windows && TipsHalfSeconds(q[0].level).Some?))
    ensures r.1.Failure? ==>
      r.0 == l.(timeLast := 0.0, queue := (l.queue + Accepted(l.notifLevel, triggered))[1..])
  {
    if l.timeLast + deltaTime < 1.0 then (l.(timeLast := l.timeLast + deltaTime), Success(None))
    else
      var updated := DispatchAll(l.(timeLast := 0.0), triggered);
      DispatchAllQueuesAccepted(l.(timeLast := 0.0), triggered);
      if updated.lockHalves <= 0 then
        if |updated.queue| == 0 then (updated, Success(None))
        else
          var msg := updated.queue[0];
          var dequeued := updated.(queue := updated.queue[1..]);
          match OperateNotificationMsg(dequeued, msg)
          case Failure(e) => (dequeued, Failure(e))
          case Success(shown) => (dequeued.(lockHalves := TipsHalfSeconds(msg.level).value), Success(shown))
      else
        (updated.(lockHalves := updated.lockHalves - 2), Success(None))
  }

  /** Messages leave the queue in the order they were accepted: an update
      that takes a message takes the oldest one, and leaves the rest in
      order. */
  lemma UpdateIsFifo(l: Listener, deltaTime: real, triggered: seq<Msg>)
    requires l.timeLast + deltaTime >= 1.0 && l.lockHalves <= 0
    requires |l.queue| > 0
    requires l.queue[0].notification in l.windows && TipsHalfSeconds(l.queue[0].level).Some?
    ensures Update(l, deltaTime, triggered).1.Success?
    ensures Update(l, deltaTime, triggered).0.queue == l.queue[1..] + Accepted(l.notifLevel, triggered)
  {
    DispatchAllQueuesAccepted(l.(timeLast := 0.0), triggered);
    assert (l.queue + Accepted(l.notifLevel, triggered))[1..] == l.queue[1..] + Accepted(l.notifLevel, triggered);
  }

  /** A shown message holds the queue: the update after it shows nothing,
      whatever the time elapsed and the messages triggered. */
  lemma ShownMessageLocks(l: Listener, deltaTime: real, triggered: seq<Msg>)
    requires Update(l, deltaTime, triggered).1.Success? && Update(l, deltaTime, triggered).1.value.Some?
    ensures var next := Update(l, deltaTime, triggered).0;
      next.lockHalves >= 3 && forall d, t :: Update(next, d, t).1 == Success(None)
  {
  }
}
