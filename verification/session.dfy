/** The lifecycle of `NRSessionManager`: its session state machine, the
    sticky fatal-error flag set by `HandleKernalError`, and the tip shown for
    an error. Native calls made during a transition (device creation and
    start) are inputs giving their outcome. */
module Session {
  import opened Wrappers
  import CSharp
  import KernalErrors
  import HMDTracker

  /** `SessionState` (its numeric values are not part of this model). */
  datatype SessionState = UnInitialized | Initialized | Running | Paused | Destroyed

  /** The manager's fields: state, the session-error flag, the lost-tracking
      reason it reports, whether the session behaviour is bound, whether the
      trackable factory and the tracking subsystem were created (they are
      created together, only on the path that reaches Initialized, and never
      cleared), the errors raised through `OnKernalError` and the fatal error
      shown (if any). */
  datatype Manager = Manager(
    state: SessionState,
    isSessionError: bool,
    lostTrackingReason: HMDTracker.LostTrackingReason,
    hasBehaviour: bool,
    hasSubsystems: bool,
    raised: seq<KernalErrors.KernalError>,
    fatal: Option<KernalErrors.KernalError>)

  /** An exception that escapes a session call to its caller. */
  datatype Escaped = NullReference

  function NewManager(): (m: Manager)
    ensures m.state == UnInitialized && !m.isSessionError && m.raised == [] && m.fatal.None?
    ensures m.lostTrackingReason == HMDTracker.ReasonInitializing
    ensures !m.hasBehaviour && !m.hasSubsystems
  {
    Manager(UnInitialized, false, HMDTracker.ReasonInitializing, false, false, [], None)
  }

  /** `IsInitialized`. */
  predicate IsInitialized(m: Manager) {
    m.state != UnInitialized && m.state != Destroyed
  }

  /** The fatal error is shown exactly when the error flag is set, and it is
      a High one; a created, running or paused session has its subsystems,
      and subsystems are only created once a behaviour is bound. */
  predicate Valid(m: Manager) {
    && (m.isSessionError <==> m.fatal.Some?)
    && (m.fatal.Some? ==> m.fatal.value.level == KernalErrors.High)
    && (m.state == Initialized || m.state == Running || m.state == Paused ==> m.hasSubsystems)
    && (m.hasSubsystems ==> m.hasBehaviour)
  }

  /** `HandleKernalError`: ignored once the session has failed; otherwise the
      error is raised, and a High one marks the session failed and shows the
      fatal tip. */
  function HandleKernalError(m: Manager, e: KernalErrors.KernalError): (m': Manager)
    requires Valid(m)
    ensures Valid(m')
    ensures m.isSessionError ==> m' == m
    ensures !m.isSessionError ==> m'.raised == m.raised + [e]
    ensures !m.isSessionError ==> (m'.isSessionError <==> e.level == KernalErrors.High)
    ensures m'.state == m.state && m'.lostTrackingReason == m.lostTrackingReason
    ensures m'.hasBehaviour == m.hasBehaviour && m'.hasSubsystems == m.hasSubsystems
  {
    if m.isSessionError then m
    else
      var m1 := m.(raised := m.raised + [e]);
      if e.level == KernalErrors.High then m1.(isSessionError := true, fatal := Some(e)) else m1
  }

  /** What a native device call did: returned, threw an SDK error, or threw
      some other exception (which is only logged). */
  datatype CallOutcome = Returned | ThrewKernalError(error: KernalErrors.KernalError) | ThrewOther

  /** `CreateSession`: only from UnInitialized or Destroyed. A second session
      behaviour is rejected; a missing pose tracker or swap chain is a High
      missing-component error; a failing device creation is handled or
      logged; otherwise the session becomes Initialized. */
  function CreateSession(m: Manager, hasTracker: bool, hasSwapChain: bool, deviceCreate: CallOutcome): (m': Manager)
    requires Valid(m)
    ensures Valid(m')
    ensures m.state != UnInitialized && m.state != Destroyed ==> m' == m
    ensures m'.state == Initialized <==>
      || m.state == Initialized
      || ((m.state == UnInitialized || m.state == Destroyed) && !m.hasBehaviour && hasTracker && hasSwapChain
          && deviceCreate.Returned?)
    ensures m'.state != Initialized ==> m'.state == m.state
    ensures m'.hasSubsystems <==> m.hasSubsystems || m'.state != m.state
    ensures (m.state == UnInitialized || m.state == Destroyed) && !m.hasBehaviour && !hasTracker ==>
      m' == HandleKernalError(m.(hasBehaviour := true),
        KernalErrors.NewError(KernalErrors.MissingKeyComponentError, KernalErrors.Success,
          "Missing the key component of 'NRHMDPoseTracker'.", KernalErrors.Normal))
  {
    if m.state != UnInitialized && m.state != Destroyed then m
    else if m.hasBehaviour then m
    else
      var m1 := m.(hasBehaviour := true);
      if !hasTracker then
        HandleKernalError(m1, KernalErrors.NewError(KernalErrors.MissingKeyComponentError, KernalErrors.Success,
          "Missing the key component of 'NRHMDPoseTracker'.", KernalErrors.Normal))
      else if !hasSwapChain then
        HandleKernalError(m1, KernalErrors.NewError(KernalErrors.MissingKeyComponentError, KernalErrors.Success,
          "Missing the key component of 'NRSwapChainManager'.", KernalErrors.Normal))
      else
        match deviceCreate
        case ThrewKernalError(e) => HandleKernalError(m1, e)
        case ThrewOther => m1
        case Returned => m1.(state := Initialized, hasSubsystems := true)
  }

  /** `StartSession`: refused while Running, after Destroy or after a fatal
      error. A failing device start is handled or logged; a device whose
      category the configuration does not target raises a High
      unsupported-device error naming that category; otherwise the session
      runs. Two paths throw a null reference to the caller and leave the
      manager as it was: before `CreateSession` has bound a session
      behaviour, reading its configuration; and after a `CreateSession` that
      stopped before creating the subsystems, the call on the tracking
      subsystem. */
  function StartSession(m: Manager, deviceStart: CallOutcome, deviceCategory: string, isTargetDevice: bool)
    : (r: (Manager, Option<Escaped>))
    requires Valid(m)
    ensures Valid(r.0)
    ensures m.state == Running || m.state == Destroyed || m.isSessionError ==> r == (m, None)
    ensures r.0.state == Running <==>
      || m.state == Running
      || (m.state != Destroyed && !m.isSessionError && deviceStart.Returned? && m.hasSubsystems && isTargetDevice)
    ensures r.0.state != Running ==> r.0.state == m.state
    ensures r.1.Some? <==>
      (&& m.state != Running && m.state != Destroyed && !m.isSessionError && deviceStart.Returned?
       && (!m.hasBehaviour || (isTargetDevice && !m.hasSubsystems)))
    ensures r.1.Some? ==> r.0 == m
    ensures (!isTargetDevice && deviceStart.Returned? && m.hasBehaviour && m.state != Running && m.state != Destroyed
      && !m.isSessionError) ==>
      && r.0.isSessionError
      && r == (HandleKernalError(m, KernalErrors.KernalError(KernalErrors.UnSupportDeviceError, KernalErrors.High,
           "Unsuppport running on " + deviceCategory + "!", KernalErrors.Success)), None)
  {
    if m.state == Running || m.state == Destroyed || m.isSessionError then (m, None)
    else
      match deviceStart
      case ThrewKernalError(e) => (HandleKernalError(m, e), None)
      case ThrewOther => (m, None)
      case Returned =>
        if !m.hasBehaviour then (m, Some(NullReference))
        else if !isTargetDevice then
          (HandleKernalError(m, KernalErrors.NewError(KernalErrors.UnSupportDeviceError, KernalErrors.Success,
            "Unsuppport running on " + deviceCategory + "!", KernalErrors.Normal)), None)
        else if !m.hasSubsystems then (m, Some(NullReference))
        else (m.(state := Running), None)
  }

  /** A session whose device creation threw has its behaviour bound but no
      subsystems: a later start on a targeted device throws a null
      reference, and the session stays UnInitialized. */
  lemma AbortedCreateThenStartThrows(deviceCreate: CallOutcome, deviceCategory: string)
    requires deviceCreate.ThrewOther? || (deviceCreate.ThrewKernalError? && deviceCreate.error.level != KernalErrors.High)
    ensures var c := CreateSession(NewManager(), true, true, deviceCreate);
      && c.state == UnInitialized && c.hasBehaviour && !c.hasSubsystems && !c.isSessionError
      && StartSession(c, Returned, deviceCategory, true) == (c, Some(NullReference))
  {
  }

  /** A session created without error starts on a targeted device and runs,
      with nothing thrown. */
  lemma CreateThenStartRuns(deviceCategory: string)
    ensures var c := CreateSession(NewManager(), true, true, Returned);
      StartSession(c, Returned, deviceCategory, true) == (c.(state := Running), None)
  {
  }

  /** `DisableSession`: Running to Paused only, and the lost-tracking
      reason goes back to INITIALIZING. */
  function DisableSession(m: Manager): (m': Manager)
    ensures m.state != Running || m.isSessionError ==> m' == m
    ensures m.state == Running && !m.isSessionError ==>
      m' == m.(state := Paused, lostTrackingReason := HMDTracker.ReasonInitializing)
  {
    if m.state != Running || m.isSessionError then m
    else m.(state := Paused, lostTrackingReason := HMDTracker.ReasonInitializing)
  }

  /** `ResumeSession`: Paused to Running only. */
  function ResumeSession(m: Manager): (m': Manager)
    ensures m.state != Paused || m.isSessionError ==> m' == m
    ensures m.state == Paused && !m.isSessionError ==> m' == m.(state := Running)
  {
    if m.state != Paused || m.isSessionError then m else m.(state := Running)
  }

  /** `DestroySession`: a no-op when already Destroyed or never created;
      otherwise the session is Destroyed, even after a fatal error. */
  function DestroySession(m: Manager): (m': Manager)
    ensures m.state == Destroyed || m.state == UnInitialized ==> m' == m
    ensures m.state != Destroyed && m.state != UnInitialized ==> m' == m.(state := Destroyed)
    ensures !IsInitialized(m')
  {
    if m.state == Destroyed || m.state == UnInitialized then m else m.(state := Destroyed)
  }

  /** Disable then resume returns a running session to Running, with the
      lost-tracking reason reset. */
  lemma DisableResumeRoundTrip(m: Manager)
    requires m.state == Running && !m.isSessionError
    ensures ResumeSession(DisableSession(m)) == m.(lostTrackingReason := HMDTracker.ReasonInitializing)
  {
  }

  /** After a High error has been handled, every later error is ignored and
      start, disable and resume change nothing. */
  lemma FatalErrorFreezesSession(m: Manager, e: KernalErrors.KernalError, later: KernalErrors.KernalError,
                                 deviceStart: CallOutcome, deviceCategory: string, isTargetDevice: bool)
    requires Valid(m) && e.level == KernalErrors.High
    ensures var f := HandleKernalError(m, e);
      && f.isSessionError
      && HandleKernalError(f, later) == f
      && StartSession(f, deviceStart, deviceCategory, isTargetDevice) == (f, None)
      && DisableSession(f) == f
      && ResumeSession(f) == f
  {
  }

  /** The user tips (`NativeConstants`). */
  const GlassesDisconnectErrorTip: string := "Please connect your Glasses."
  const GlassesNotAvailbleErrorTip: string := "Please make sure your Glasses is available"
  const SdkVersionMismatchErrorTip: string := "Please update to the latest version of NRSDK."
  const SdcardPermissionDenyErrorTip: string :=
    "There is no read permission for sdcard. Please go to the authorization management page of the device to authorize."
  const UnknowErrorTip: string := "Unkown error! \nPlease contact customer service."
  const UnSupportDeviceErrorTip: string :=
    "App doesn't suppport to run on current glass! \nPlease contact App developer's customer service."
  const DPDeviceNotFindErrorTip: string := "Glasses display device not find! \nPlease contact customer service."
  const GetDisplayFailureErrorTip: string := "MRSpace display device not find! \nPlease contact customer service."
  const DisplayModeMismatchErrorTip: string :=
    "Display mode mismatch, as MRSpace mode is needed! \nPlease contact customer service."
  const SDKRuntimeNotFoundErrorTip: string := "Not found sdk runtime! \nPlease start the server app firstly."

  /** `GetErrorTipDesc`: the tip for each error class with one, the unknown
      tip for every other class. */
  function GetErrorTipDesc(c: KernalErrors.ErrorClass): (tip: string)
    ensures (c !in {KernalErrors.GlassesConnectError, KernalErrors.SdkVersionMismatchError,
                   KernalErrors.SdcardPermissionDenyError, KernalErrors.UnSupportDeviceError,
                   KernalErrors.DPDeviceNotFindError, KernalErrors.GetDisplayFailureError,
                   KernalErrors.DisplayModeMismatchError, KernalErrors.RuntimeNotFoundError,
                   KernalErrors.GlassesNotAvailbleError}) ==> tip == UnknowErrorTip
    ensures c == KernalErrors.GlassesConnectError ==> tip == GlassesDisconnectErrorTip
  {
    match c
    case GlassesConnectError => GlassesDisconnectErrorTip
    case SdkVersionMismatchError => SdkVersionMismatchErrorTip
    case SdcardPermissionDenyError => SdcardPermissionDenyErrorTip
    case UnSupportDeviceError => UnSupportDeviceErrorTip
    case DPDeviceNotFindError => DPDeviceNotFindErrorTip
    case GetDisplayFailureError => GetDisplayFailureErrorTip
    case DisplayModeMismatchError => DisplayModeMismatchErrorTip
    case RuntimeNotFoundError => SDKRuntimeNotFoundErrorTip
    case GlassesNotAvailbleError => GlassesNotAvailbleErrorTip
    case _ => UnknowErrorTip
  }

  /** `GetErrorTip`: a native error's tip is followed by its result code in
      parentheses. */
  function GetErrorTip(e: KernalErrors.KernalError): (tip: string)
    ensures !KernalErrors.IsNative(e.cls) ==> tip == GetErrorTipDesc(e.cls)
    ensures KernalErrors.IsNative(e.cls) ==>
      tip == GetErrorTipDesc(e.cls) + "(" + CSharp.NatToString(KernalErrors.ResultCode(e.result)) + ")"
  {
    var desc := GetErrorTipDesc(e.cls);
    if KernalErrors.IsNative(e.cls) then desc + "(" + CSharp.IntToString(KernalErrors.ResultCode(e.result)) + ")"
    else desc
  }

  /** A tip never loses its description, and a native one ends with ")". */
  lemma TipStartsWithDescription(e: KernalErrors.KernalError)
    ensures var tip := GetErrorTip(e); var d := GetErrorTipDesc(e.cls);
      |d| <= |tip| && tip[..|d|] == d
      && (KernalErrors.IsNative(e.cls) ==> |tip| > |d| + 2 && tip[|d|] == '(' && tip[|tip| - 1] == ')')
  {
  }
}
