/** `NativeConfiguration`: pushes a session config to the native
    perception config. Updates are serialised by a lock flag; native calls
    are parameters (their results) and outputs (the calls made). Result
    checks only log here, so they do not change control flow. */
module NativeConfig {
  import opened Wrappers
  import opened SessionConfigs

  /** The plane-finding value handed to the native side: a mode's own
      value, or the bitwise union of horizontal and vertical. */
  datatype PlaneModeValue = ModeValue(mode: PlaneFindingMode) | HorizontalOrVertical

  /** `SetPlaneFindMode`'s mapping: disable, horizontal and vertical pass
      through, both becomes horizontal-or-vertical, anything else disables. */
  function PlaneModeValueOf(mode: PlaneFindingMode): (r: PlaneModeValue)
    ensures mode in {PlaneDisable, PlaneHorizontal, PlaneVertical} ==> r == ModeValue(mode)
    ensures mode == PlaneBoth <==> r == HorizontalOrVertical
    ensures mode.PlaneOther? ==> r == ModeValue(PlaneDisable)
  {
    match mode
    case PlaneBoth => HorizontalOrVertical
    case PlaneOther(_) => ModeValue(PlaneDisable)
    case _ => ModeValue(mode)
  }

  /** The value sent always names one of disable, horizontal, vertical or
      both directions. */
  lemma PlaneModeValueIsNamed(mode: PlaneFindingMode)
    ensures PlaneModeValueOf(mode).ModeValue? ==> PlaneModeValueOf(mode).mode in {PlaneDisable, PlaneHorizontal, PlaneVertical}
  {
  }

  /** The native calls the configuration makes, in order. */
  datatype NativeCall =
    | SetPlaneMode(configHandle: nat, value: PlaneModeValue)
    | SetImageDatabase(configHandle: nat, databaseHandle: nat)
    | DeployDatabase(guid: string)
    | CreateDatabase
    | LoadDatabase(databaseHandle: nat, path: string)

  /** The wrapper's state: the perception and config handles, the lock,
      the last config applied, the database handles by GUID and the current
      database handle. */
  datatype Configuration = Configuration(perceptionHandle: nat, configHandle: nat, locked: bool,
                                         last: SessionConfig, databases: map<string, nat>, databaseHandle: nat)

  /** A fresh wrapper: no config handle, unlocked, the default config. */
  function NewConfiguration(perceptionHandle: nat): (r: Configuration)
    ensures r.configHandle == 0 && !r.locked && r.databases == map[] && r.last == DefaultConfig
  {
    Configuration(perceptionHandle, 0, false, DefaultConfig, map[], 0)
  }

  /** What the native side answers during an update: the plane mode it
      currently has, whether setting the database succeeds, and the handle
      a new database gets. */
  datatype NativeAnswers = NativeAnswers(currentPlaneMode: PlaneFindingMode, setDatabaseOk: bool, newDatabaseHandle: nat)

  /** `UpdatePlaneFindMode`: sets the mode only when the native side has a
      different one. */
  function UpdatePlaneFindMode(s: Configuration, config: SessionConfig, ans: NativeAnswers): (r: seq<NativeCall>)
    ensures ans.currentPlaneMode == config.planeFindingMode <==> r == []
    ensures r != [] ==> r == [SetPlaneMode(s.configHandle, PlaneModeValueOf(config.planeFindingMode))]
  {
    if ans.currentPlaneMode != config.planeFindingMode then
      [SetPlaneMode(s.configHandle, PlaneModeValueOf(config.planeFindingMode))]
    else []
  }

  /** `UpdateImageTrackingConfig`: disabling detaches the database (and
      forgets the known databases when that succeeds); enabling with a
      database deploys and creates it the first time its GUID is seen,
      then loads and attaches it. */
  function UpdateImageTrackingConfig(s: Configuration, config: SessionConfig, ans: NativeAnswers): (r: (Configuration, seq<NativeCall>))
    ensures r.0.configHandle == s.configHandle && r.0.locked == s.locked && r.0.last == s.last
    ensures config.imageTrackingMode == ImageDisable ==>
      r.1 == [SetImageDatabase(s.configHandle, 0)] && r.0.databases == (if ans.setDatabaseOk then map[] else s.databases)
    ensures config.imageTrackingMode == ImageEnable && config.trackingImageDatabase.Some? ==>
      var db := config.trackingImageDatabase.value;
      && db.guid in r.0.databases
      && r.0.databaseHandle == r.0.databases[db.guid]
      && (db.guid in s.databases ==> r.0.databases == s.databases)
      && (db.guid !in s.databases ==> r.0.databases == s.databases[db.guid := ans.newDatabaseHandle])
      && |r.1| >= 2
      && r.1[|r.1| - 2..] == [LoadDatabase(r.0.databaseHandle, db.dataPath), SetImageDatabase(s.configHandle, r.0.databaseHandle)]
    ensures (config.imageTrackingMode.ImageOther? || (config.imageTrackingMode == ImageEnable && config.trackingImageDatabase.None?)) ==>
      r == (s, [])
  {
    match config.imageTrackingMode
    case ImageDisable =>
      (if ans.setDatabaseOk then s.(databases := map[]) else s, [SetImageDatabase(s.configHandle, 0)])
    case ImageEnable =>
      (match config.trackingImageDatabase
       case None => (s, [])
       case Some(db) =>
         var (s', created) :=
           if db.guid in s.databases then (s.(databaseHandle := s.databases[db.guid]), [])
           else (s.(databaseHandle := ans.newDatabaseHandle, databases := s.databases[db.guid := ans.newDatabaseHandle]),
                 [DeployDatabase(db.guid), CreateDatabase]);
         (s', created + [LoadDatabase(s'.databaseHandle, db.dataPath), SetImageDatabase(s.configHandle, s'.databaseHandle)]))
    case ImageOther(_) => (s, [])
  }

  /** `UpdateConfig`. Refused while another update holds the lock. Creates
      the config handle if there is none (`createdHandle` is what the native
      create gives); refused when the handle is still 0 or the config equals
      the last one applied. Otherwise applies plane and image settings and
      remembers the config. The lock is released on every path that took
      it. */
  function UpdateConfig(s: Configuration, config: SessionConfig, createdHandle: nat, ans: NativeAnswers): (r: (Configuration, bool, seq<NativeCall>))
    ensures s.locked ==> r == (s, false, [])
    ensures !s.locked ==> !r.0.locked
    ensures r.1 <==> !s.locked && r.0.configHandle != 0 && !Equals(s.last, ConfigArg(config))
    ensures !r.1 ==> r.2 == [] && r.0.last == s.last && r.0.databases == s.databases
    ensures r.1 ==> Equals(r.0.last, ConfigArg(config))
    ensures r.0.configHandle == (if s.configHandle == 0 && !s.locked then createdHandle else s.configHandle)
  {
    if s.locked then (s, false, [])
    else
      var handle := if s.configHandle == 0 then createdHandle else s.configHandle;
      var s1 := s.(configHandle := handle);
      if handle == 0 || Equals(s.last, ConfigArg(config)) then (s1, false, [])
      else
        var plane := UpdatePlaneFindMode(s1, config, ans);
        var (s2, image) := UpdateImageTrackingConfig(s1, config, ans);
        CopyFromThenEquals(s.last, config);
        (s2.(last := CopyFrom(s.last, config)), true, plane + image)
  }

  /** Applying the same config twice: the second update changes nothing
      and makes no native call. */
  lemma UpdateConfigTwice(s: Configuration, config: SessionConfig, h1: nat, h2: nat, a1: NativeAnswers, a2: NativeAnswers)
    requires UpdateConfig(s, config, h1, a1).1
    ensures var s1 := UpdateConfig(s, config, h1, a1).0;
      UpdateConfig(s1, config, h2, a2) == (s1, false, [])
  {
    var s1 := UpdateConfig(s, config, h1, a1).0;
    assert s1.configHandle != 0;
    assert Equals(s1.last, ConfigArg(config));
  }

  /** `UpdateConfigHandle`, run when the perception handle changes: with
      a config handle already in place, a new one is created and the last
      config is re-applied under the lock (plane mode set unconditionally,
      known databases forgotten first). The lock is taken and released
      whatever its state before, so it ends released. */
  function UpdateConfigHandle(s: Configuration, perceptionHandle: nat, createdHandle: nat, ans: NativeAnswers): (r: (Configuration, seq<NativeCall>))
    ensures r.0.perceptionHandle == perceptionHandle && r.0.last == s.last
    ensures s.configHandle == 0 ==> r.1 == [] && r.0.configHandle == 0 && r.0.locked == s.locked
    ensures s.configHandle != 0 ==> !r.0.locked
    ensures s.configHandle != 0 ==>
      (r.0.configHandle == createdHandle && |r.1| >= 1
       && r.1[0] == SetPlaneMode(createdHandle, PlaneModeValueOf(s.last.planeFindingMode)))
  {
    var s0 := s.(perceptionHandle := perceptionHandle);
    if s.configHandle == 0 then (s0, [])
    else
      var s1 := s0.(configHandle := createdHandle, databases := map[], locked := true);
      var (s2, image) := UpdateImageTrackingConfig(s1, s.last, ans);
      (s2.(locked := false), [SetPlaneMode(createdHandle, PlaneModeValueOf(s.last.planeFindingMode))] + image)
  }

  /** The feature queries and setters (`IsTrackableAnchorEnabled`,
      `IsMeshingEnabled`, `IsHandTrackingEnabled` and the setters of the
      first two): false when either handle is 0, the native answer
      otherwise. */
  function FeatureCall(s: Configuration, nativeAnswer: bool): (r: bool)
    ensures (s.perceptionHandle == 0 || s.configHandle == 0) ==> !r
    ensures s.perceptionHandle != 0 && s.configHandle != 0 ==> r == nativeAnswer
  {
    if s.perceptionHandle == 0 || s.configHandle == 0 then false else nativeAnswer
  }

  /** `SetHandTrackingEnabled`: false when either handle is 0; otherwise
      the requested value, whatever the native call answered. */
  function SetHandTrackingEnabled(s: Configuration, enabled: bool, nativeOk: bool): (r: bool)
    ensures (s.perceptionHandle == 0 || s.configHandle == 0) ==> !r
    ensures s.perceptionHandle != 0 && s.configHandle != 0 ==> r == enabled
  {
    if s.perceptionHandle == 0 || s.configHandle == 0 then false else enabled
  }

  /** Unlike the other setters, a failed native call still reports
      success when enabling hand tracking. */
  lemma HandTrackingIgnoresNativeResult(s: Configuration)
    requires s.perceptionHandle != 0 && s.configHandle != 0
    ensures SetHandTrackingEnabled(s, true, false) && !FeatureCall(s, false)
  {
  }
}
