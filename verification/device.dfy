/** `NRDeviceSubsystem`: the glasses device's availability, the latched
    plug-out flag, and the brightness range. Whether the subsystem is
    running is kept by its Unity base class, which is not part of this
    model; it is an input here. Native calls are parameters. */
module Device {
  import opened Wrappers

  /** The glasses' state as this class keeps it: the static plug-out and
      reset-on-resume flags, whether construction failed, and the highest
      brightness level. */
  datatype DeviceState = DeviceState(plugOut: bool, resetOnNextResume: bool, initFailed: bool, brightnessMax: int)

  const BrightnessMin: int := 0

  /** The initial value of the static brightness maximum, before any
      glasses have reported their levels. */
  const DefaultBrightnessMax: int := 7

  /** `IsAvailable`: not plugged out, running, and constructed without an
      exception. */
  predicate IsAvailable(s: DeviceState, running: bool) {
    !s.plugOut && running && !s.initFailed
  }

  /** The constructor: a failing native creation is remembered (and
      rethrown). The plug-out and reset flags and the brightness maximum
      are static fields, so a new subsystem sees whatever an earlier one
      left in them (`DefaultBrightnessMax` when none has started). */
  function Create(plugOut: bool, resetOnNextResume: bool, brightnessMax: int, nativeCreateFails: bool): (r: DeviceState)
    ensures r.initFailed == nativeCreateFails && r.brightnessMax == brightnessMax
    ensures r.plugOut == plugOut && r.resetOnNextResume == resetOnNextResume
  {
    DeviceState(plugOut, resetOnNextResume, nativeCreateFails, brightnessMax)
  }

  /** A subsystem created after another one has started keeps the
      brightness maximum that start read from the glasses, and is
      available while running exactly when the earlier one left the
      glasses plugged in and its own creation succeeded. */
  lemma SecondInstanceSharesStatics(first: DeviceState, levels: int, running: bool, nativeCreateFails: bool)
    ensures var started := Start(first, true, levels);
      var second := Create(started.plugOut, started.resetOnNextResume, started.brightnessMax, nativeCreateFails);
      && second.brightnessMax == levels - 1
      && (IsAvailable(second, running) <==> !first.plugOut && running && !nativeCreateFails)
  {
  }

  /** A device whose construction failed is never available. */
  lemma FailedInitNeverAvailable(s: DeviceState, running: bool)
    requires s.initFailed
    ensures !IsAvailable(s, running)
  {
  }

  /** `Start`: asks the glasses for their number of brightness levels; the
      highest level is one less, and a failed query keeps the previous
      value. */
  function Start(s: DeviceState, levelsOk: bool, levels: int): (r: DeviceState)
    ensures levelsOk ==> r.brightnessMax == levels - 1
    ensures !levelsOk ==> r.brightnessMax == s.brightnessMax
    ensures r.plugOut == s.plugOut && r.initFailed == s.initFailed && r.resetOnNextResume == s.resetOnNextResume
  {
    if levelsOk then s.(brightnessMax := levels - 1) else s
  }

  /** `OnGlassesDisconnectEvent`: the first disconnect latches the
      plug-out flag and raises the disconnect event; later ones are
      ignored. */
  function OnGlassesDisconnect(s: DeviceState): (r: (DeviceState, bool))
    ensures r.0.plugOut
    ensures r.1 <==> !s.plugOut
    ensures r.0 == s.(plugOut := true)
  {
    if s.plugOut then (s, false) else (s.(plugOut := true), true)
  }

  /** The disconnect event fires once, however many disconnects arrive. */
  lemma DisconnectLatches(s: DeviceState)
    ensures var once := OnGlassesDisconnect(s).0;
      !OnGlassesDisconnect(once).1 && OnGlassesDisconnect(once).0 == once
  {
  }

  /** `ResetStateOnNextResume`. */
  function ResetStateOnNextResume(s: DeviceState): (r: DeviceState)
    ensures r.resetOnNextResume && r.plugOut == s.plugOut
  {
    s.(resetOnNextResume := true)
  }

  /** `Resume`: with the reset flag set, clears both the flag and the
      plug-out latch; otherwise changes nothing. */
  function Resume(s: DeviceState): (r: DeviceState)
    ensures s.resetOnNextResume ==> !r.resetOnNextResume && !r.plugOut
    ensures !s.resetOnNextResume ==> r == s
    ensures r.initFailed == s.initFailed && r.brightnessMax == s.brightnessMax
  {
    if s.resetOnNextResume then s.(resetOnNextResume := false, plugOut := false) else s
  }

  /** `Destroy`: clears the plug-out latch. */
  function Destroy(s: DeviceState): (r: DeviceState)
    ensures !r.plugOut && r.resetOnNextResume == s.resetOnNextResume
  {
    s.(plugOut := false)
  }

  /** After a disconnect the device stays unavailable until a resume that
      was asked to reset; then it is available again while running. */
  lemma UnplugThenResetResume(s: DeviceState, running: bool)
    requires !s.initFailed
    ensures var unplugged := OnGlassesDisconnect(s).0;
      && !IsAvailable(unplugged, running)
      && (IsAvailable(Resume(unplugged), running) <==> s.resetOnNextResume && running)
      && (IsAvailable(Resume(ResetStateOnNextResume(unplugged)), running) <==> running)
  {
  }

  /** `NRGlassesNotAvailbleError`. */
  datatype DeviceError = GlassesNotAvailable

  /** The device queries (`GlassesStereoMode`, `GetDeviceType`,
      `GetDeviceCategory`, `IsFeatureSupported`, `GetDeviceResolution`,
      `GetEyeFov`, `GetDeviceDistortion`, `GetDeviceIntrinsicMatrix`,
      `GetEyeProjectMatrix`, `GetDevicePoseFromHead`): the native answer
      when available, an exception otherwise. */
  function Query<T>(s: DeviceState, running: bool, nativeAnswer: T): (r: Result<T, DeviceError>)
    ensures r.Success? <==> IsAvailable(s, running)
    ensures r.Success? ==> r.value == nativeAnswer
  {
    if IsAvailable(s, running) then Success(nativeAnswer) else Failure(GlassesNotAvailable)
  }

  /** `GetBrightness`: -1 when unavailable or when the native read fails,
      the native value otherwise. */
  function GetBrightness(s: DeviceState, running: bool, nativeOk: bool, nativeValue: int): (r: int)
    ensures !IsAvailable(s, running) || !nativeOk ==> r == -1
    ensures IsAvailable(s, running) && nativeOk ==> r == nativeValue
  {
    if !IsAvailable(s, running) then -1 else if nativeOk then nativeValue else -1
  }

  /** `SetBrightness`: when available, the value to hand to the native
      side on the background executor; nothing otherwise. */
  function SetBrightness(s: DeviceState, running: bool, brightness: int): (r: Option<int>)
    ensures r.Some? <==> IsAvailable(s, running)
    ensures r.Some? ==> r.value == brightness
  {
    if IsAvailable(s, running) then Some(brightness) else None
  }

  /** Glasses reporting `n >= 1` levels have brightness levels 0 to
      `n - 1`, so the range holds exactly `n` values. */
  lemma BrightnessRange(s: DeviceState, levels: int)
    requires levels >= 1
    ensures var max := Start(s, true, levels).brightnessMax;
      BrightnessMin <= max && max - BrightnessMin + 1 == levels
  {
  }
}
