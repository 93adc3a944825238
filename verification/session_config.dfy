/** `NRSessionConfig`: the tracking features a session asks for, its
    value equality and copy, and the project-wide target devices. Unity
    object references (image database, prompt prefabs, project config) are
    modelled by identity. */
module SessionConfigs {
  import opened Wrappers

  /** `TrackablePlaneFindingMode`; the enum's numeric values are not part
      of this model, so values outside the named four are kept apart. */
  datatype PlaneFindingMode = PlaneDisable | PlaneHorizontal | PlaneVertical | PlaneBoth | PlaneOther(code: int)

  /** `TrackableImageFindingMode`. */
  datatype ImageFindingMode = ImageDisable | ImageEnable | ImageOther(code: int)

  /** `NRDeviceCategory`, by identity. */
  type DeviceCategory = nat

  /** An `NRTrackingImageDatabase` asset: identity, GUID and data path. */
  datatype ImageDatabase = ImageDatabase(id: nat, guid: string, dataPath: string)

  /** The project-wide `NRProjectConfig` asset. */
  datatype ProjectConfig = ProjectConfig(id: nat, targetDevices: seq<DeviceCategory>, supportMultiResume: bool)

  /** The serialized fields of a session config. */
  datatype SessionConfig = SessionConfig(
    planeFindingMode: PlaneFindingMode,
    imageTrackingMode: ImageFindingMode,
    trackingImageDatabase: Option<ImageDatabase>,
    enableNotification: bool,
    forceKillWhileGlassesSwitchMode: bool,
    glassesErrorTipPrefab: Option<nat>,
    trackingModeChangeTipPrefab: Option<nat>,
    useMultiThread: bool,
    projectConfig: Option<ProjectConfig>)

  /** A fresh config asset: planes and images off, no database, no
      notifications, force-kill on, no prompts, single-threaded, no project
      config. */
  const DefaultConfig: SessionConfig :=
    SessionConfig(PlaneDisable, ImageDisable, None, false, true, None, None, false, None)

  /** Reference equality of two optional Unity objects with identities. */
  predicate SameDatabase(a: Option<ImageDatabase>, b: Option<ImageDatabase>) {
    (a.None? && b.None?) || (a.Some? && b.Some? && a.value.id == b.value.id)
  }

  predicate SameProject(a: Option<ProjectConfig>, b: Option<ProjectConfig>) {
    (a.None? && b.None?) || (a.Some? && b.Some? && a.value.id == b.value.id)
  }

  /** The argument of `Equals(object)`: null, a session config, or some
      other object. */
  datatype Arg = NullArg | ConfigArg(config: SessionConfig) | OtherArg

  /** The four fields `Equals` compares. */
  predicate SameTracking(c: SessionConfig, o: SessionConfig) {
    && c.planeFindingMode == o.planeFindingMode
    && c.imageTrackingMode == o.imageTrackingMode
    && SameDatabase(c.trackingImageDatabase, o.trackingImageDatabase)
    && SameProject(c.projectConfig, o.projectConfig)
  }

  /** `NullReferenceException`. */
  datatype ConfigError = NullReference

  /** `Equals` as written: the argument is cast with `as`, but the null
      test is on the uncast argument, so an object of another type reaches
      the field comparison through a null reference. */
  function EqualsAsWritten(c: SessionConfig, other: Arg): (r: Result<bool, ConfigError>)
    ensures other.NullArg? ==> r == Success(false)
    ensures other.OtherArg? ==> r == Failure(NullReference)
    ensures other.ConfigArg? ==> r == Success(SameTracking(c, other.config))
  {
    match other
    case NullArg => Success(false)
    case OtherArg => Failure(NullReference)
    case ConfigArg(o) => Success(SameTracking(c, o))
  }

  /** The discrepancy: comparing a config with an object of another type
      throws instead of answering false. */
  lemma EqualsOtherTypeThrows(c: SessionConfig)
    ensures EqualsAsWritten(c, OtherArg).Failure?
  {
  }

  /** `Equals` as evidently intended: null or another type is unequal;
      otherwise plane mode, image mode, database and project config are
      compared, and nothing else. */
  function Equals(c: SessionConfig, other: Arg): (r: bool)
    ensures !other.ConfigArg? ==> !r
    ensures other.ConfigArg? ==> (r <==> SameTracking(c, other.config))
  {
    other.ConfigArg? && SameTracking(c, other.config)
  }

  /** The corrected `Equals` agrees with the code on every argument the
      code does not throw on. */
  lemma EqualsAgreesWhereDefined(c: SessionConfig, other: Arg)
    ensures EqualsAsWritten(c, other).Success? ==> EqualsAsWritten(c, other).value == Equals(c, other)
    ensures EqualsAsWritten(c, other).Failure? <==> other.OtherArg?
  {
  }

  /** `Equals` is an equivalence on configs: reflexive, symmetric and
      transitive. */
  lemma EqualsIsEquivalence(a: SessionConfig, b: SessionConfig, c: SessionConfig)
    ensures Equals(a, ConfigArg(a))
    ensures Equals(a, ConfigArg(b)) ==> Equals(b, ConfigArg(a))
    ensures Equals(a, ConfigArg(b)) && Equals(b, ConfigArg(c)) ==> Equals(a, ConfigArg(c))
  {
  }

  /** Fields outside the four compared ones do not affect equality. */
  lemma EqualsIgnoresPresentation(c: SessionConfig, notify: bool, forceKill: bool, tip: Option<nat>, multi: bool)
    ensures Equals(c, ConfigArg(c.(enableNotification := notify, forceKillWhileGlassesSwitchMode := forceKill,
                                   glassesErrorTipPrefab := tip, trackingModeChangeTipPrefab := tip, useMultiThread := multi)))
  {
  }

  /** `CopyFrom`: copies every serialized field except `UseMultiThread`. */
  function CopyFrom(c: SessionConfig, other: SessionConfig): (r: SessionConfig)
    ensures r.useMultiThread == c.useMultiThread
    ensures r.(useMultiThread := other.useMultiThread) == other
  {
    other.(useMultiThread := c.useMultiThread)
  }

  /** After copying from a config, the copy equals it. */
  lemma CopyFromThenEquals(c: SessionConfig, other: SessionConfig)
    ensures Equals(CopyFrom(c, other), ConfigArg(other))
    ensures EqualsAsWritten(CopyFrom(c, other), ConfigArg(other)) == Success(true)
  {
  }

  /** `IsTargetDevice`: without a project config, no device is a target. */
  function IsTargetDevice(c: SessionConfig, device: DeviceCategory): (r: bool)
    ensures c.projectConfig.None? ==> !r
    ensures c.projectConfig.Some? ==> (r <==> exists k :: 0 <= k < |c.projectConfig.value.targetDevices| && c.projectConfig.value.targetDevices[k] == device)
  {
    c.projectConfig.Some? && device in c.projectConfig.value.targetDevices
  }

  /** `SupportMultiResume`: read through the project config, which throws
      when there is none. */
  function SupportMultiResume(c: SessionConfig): (r: Result<bool, ConfigError>)
    ensures r.Failure? <==> c.projectConfig.None?
    ensures r.Success? ==> r.value == c.projectConfig.value.supportMultiResume
  {
    match c.projectConfig
    case None => Failure(NullReference)
    case Some(p) => Success(p.supportMultiResume)
  }
}
