/** The trackables: the editor emulator's registry of planes and images
    (`NREmulatorTrackableProvider`), the manager that turns their native
    handles into cached trackable objects and answers All / New queries
    (`NRTrackableManager`), and the session-dependent getters of
    `NRTrackable`. */
module Trackables {
  import opened Wrappers
  import opened Geometry

  /** `TrackableType`. */
  datatype TrackableType = TrackableBase | TrackablePlane | TrackableImage

  /** The emulator's `TrackableInfo`: a center pose, the two extents, the
      identifier, the handle and the tracking state. */
  datatype Info = Info(pose: Pose, extentX: real, extentZ: real, identify: nat,
                       handle: nat, trackingState: TrackingState, kind: TrackableType)

  /** The two static dictionaries, keyed by identifier and enumerated in
      insertion order (nothing is ever removed), and the shared handle
      counter, which starts at 1. */
  datatype Provider = Provider(images: seq<Info>, planes: seq<Info>, nextHandle: nat)

  const EmptyProvider: Provider := Provider([], [], 1)

  /** One dictionary's invariant: only its own kind, one entry per
      identifier, and distinct nonzero handles below the counter. */
  predicate DictValid(infos: seq<Info>, kind: TrackableType, next: nat) {
    && (forall i :: 0 <= i < |infos| ==> infos[i].kind == kind)
    && (forall i, j :: 0 <= i < j < |infos| ==> infos[i].identify != infos[j].identify)
    && (forall i :: 0 <= i < |infos| ==> 1 <= infos[i].handle < next)
    && (forall i, j :: 0 <= i < j < |infos| ==> infos[i].handle != infos[j].handle)
  }

  /** The registry invariant: both dictionaries are valid and no handle is
      used by an image and a plane at once. */
  predicate ProviderValid(p: Provider) {
    && p.nextHandle >= 1
    && DictValid(p.images, TrackableImage, p.nextHandle)
    && DictValid(p.planes, TrackablePlane, p.nextHandle)
    && (forall i, j :: 0 <= i < |p.images| && 0 <= j < |p.planes| ==> p.images[i].handle != p.planes[j].handle)
  }

  /** The position of the entry with identifier `id`, or -1. */
  function IndexOfId(infos: seq<Info>, id: nat): (i: int)
    ensures -1 <= i < |infos|
    ensures i >= 0 ==> infos[i].identify == id
    ensures i == -1 <==> forall j :: 0 <= j < |infos| ==> infos[j].identify != id
  {
    if |infos| == 0 then -1
    else if infos[0].identify == id then 0
    else var k := IndexOfId(infos[1..], id); if k < 0 then -1 else k + 1
  }

  /** `UpdateTrackableImageData` / `UpdateTrackablePlaneData` on one
      dictionary: an existing identifier keeps its handle and kind and takes
      the new pose, extents and state; a new one is appended with the next
      handle. The result carries the updated counter. */
  function UpdateData(infos: seq<Info>, next: nat, kind: TrackableType, pose: Pose,
                      extentX: real, extentZ: real, id: nat, state: TrackingState): (r: (seq<Info>, nat))
    ensures var i := IndexOfId(infos, id);
      if i >= 0 then
        && r.1 == next && |r.0| == |infos|
        && r.0[i] == infos[i].(pose := pose, extentX := extentX, extentZ := extentZ, trackingState := state)
        && forall j :: 0 <= j < |infos| && j != i ==> r.0[j] == infos[j]
      else
        r == (infos + [Info(pose, extentX, extentZ, id, next, state, kind)], next + 1)
  {
    var i := IndexOfId(infos, id);
    if i >= 0 then
      (infos[i := infos[i].(pose := pose, extentX := extentX, extentZ := extentZ, identify := id, trackingState := state)], next)
    else
      (infos + [Info(pose, extentX, extentZ, id, next, state, kind)], next + 1)
  }

  /** `UpdateTrackableData<T>`: images and planes go to their dictionaries;
      any other type is refused. */
  function UpdateTrackableData(p: Provider, kind: TrackableType, pose: Pose, extentX: real,
                               extentZ: real, id: nat, state: TrackingState): (r: (Provider, bool))
    ensures r.1 <==> kind != TrackableBase
    ensures kind == TrackableBase ==> r.0 == p
    ensures kind == TrackableImage ==> r.0.planes == p.planes
    ensures kind == TrackablePlane ==> r.0.images == p.images
    ensures r.0.nextHandle == p.nextHandle || r.0.nextHandle == p.nextHandle + 1
  {
    match kind
    case TrackableImage =>
      var u := UpdateData(p.images, p.nextHandle, TrackableImage, pose, extentX, extentZ, id, state);
      (p.(images := u.0, nextHandle := u.1), true)
    case TrackablePlane =>
      var u := UpdateData(p.planes, p.nextHandle, TrackablePlane, pose, extentX, extentZ, id, state);
      (p.(planes := u.0, nextHandle := u.1), true)
    case TrackableBase => (p, false)
  }

  /** Updating one dictionary keeps its invariant, keeps every existing
      handle and gives an appended entry the counter's value. */
  lemma UpdateDataKeepsValid(infos: seq<Info>, next: nat, kind: TrackableType, pose: Pose,
                             extentX: real, extentZ: real, id: nat, state: TrackingState)
    requires DictValid(infos, kind, next) && next >= 1
    ensures var r := UpdateData(infos, next, kind, pose, extentX, extentZ, id, state);
      && DictValid(r.0, kind, r.1)
      && |r.0| >= |infos|
      && (forall j :: 0 <= j < |infos| ==> r.0[j].handle == infos[j].handle)
      && (forall j :: |infos| <= j < |r.0| ==> r.0[j].handle == next)
  {
    var r := UpdateData(infos, next, kind, pose, extentX, extentZ, id, state);
    var i := IndexOfId(infos, id);
    if i >= 0 {
      assert forall j :: 0 <= j < |infos| ==> r.0[j].handle == infos[j].handle && r.0[j].identify == infos[j].identify && r.0[j].kind == infos[j].kind;
    } else {
      assert forall j :: 0 <= j < |infos| ==> r.0[j] == infos[j];
    }
  }

  /** Updating keeps the registry invariant: in particular every handle the
      counter ever gave out stays unique. */
  lemma UpdateKeepsValid(p: Provider, kind: TrackableType, pose: Pose, extentX: real,
                         extentZ: real, id: nat, state: TrackingState)
    requires ProviderValid(p)
    ensures ProviderValid(UpdateTrackableData(p, kind, pose, extentX, extentZ, id, state).0)
  {
    if kind == TrackableImage {
      UpdateDataKeepsValid(p.images, p.nextHandle, kind, pose, extentX, extentZ, id, state);
      assert DictValid(p.planes, TrackablePlane, p.nextHandle + 1);
    } else if kind == TrackablePlane {
      UpdateDataKeepsValid(p.planes, p.nextHandle, kind, pose, extentX, extentZ, id, state);
      assert DictValid(p.images, TrackableImage, p.nextHandle + 1);
    }
  }

  /** `GetTrackableInfo`: the first image, then the first plane, with the
      handle. */
  function GetTrackableInfo(p: Provider, h: nat): (r: Option<Info>)
    ensures r.Some? ==> r.value.handle == h && (r.value in p.images || r.value in p.planes)
    ensures r.None? ==> ((forall i :: 0 <= i < |p.images| ==> p.images[i].handle != h)
                     && (forall i :: 0 <= i < |p.planes| ==> p.planes[i].handle != h))
    ensures r.Some? && r.value.kind == TrackablePlane && ProviderValid(p) ==> r.value in p.planes
  {
    var i := IndexOfHandle(p.images, h);
    if i >= 0 then Some(p.images[i])
    else
      var j := IndexOfHandle(p.planes, h);
      if j >= 0 then Some(p.planes[j]) else None
  }

  /** The position of the entry with handle `h`, or -1. */
  function IndexOfHandle(infos: seq<Info>, h: nat): (i: int)
    ensures -1 <= i < |infos|
    ensures i >= 0 ==> infos[i].handle == h
    ensures i == -1 <==> forall j :: 0 <= j < |infos| ==> infos[j].handle != h
  {
    if |infos| == 0 then -1
    else if infos[0].handle == h then 0
    else var k := IndexOfHandle(infos[1..], h); if k < 0 then -1 else k + 1
  }

  /** `GetIdentify`: 0 for an unknown handle. */
  function GetIdentify(p: Provider, h: nat): (id: nat)
    ensures GetTrackableInfo(p, h).None? ==> id == 0
    ensures GetTrackableInfo(p, h).Some? ==> id == GetTrackableInfo(p, h).value.identify
  {
    match GetTrackableInfo(p, h)
    case Some(info) => info.identify
    case None => 0
  }

  /** `GetTrackableType`: BASE for an unknown handle. */
  function GetTrackableType(p: Provider, h: nat): (t: TrackableType)
    ensures GetTrackableInfo(p, h).None? ==> t == TrackableBase
    ensures GetTrackableInfo(p, h).Some? ==> t == GetTrackableInfo(p, h).value.kind
  {
    match GetTrackableInfo(p, h)
    case Some(info) => info.kind
    case None => TrackableBase
  }

  /** `GetTrackingState`: Stopped for an unknown handle. */
  function GetTrackingState(p: Provider, h: nat): (s: TrackingState)
    ensures GetTrackableInfo(p, h).None? ==> s == Stopped
    ensures GetTrackableInfo(p, h).Some? ==> s == GetTrackableInfo(p, h).value.trackingState
  {
    match GetTrackableInfo(p, h)
    case Some(info) => info.trackingState
    case None => Stopped
  }

  /** `GetCenterPose` of either emulated provider: the identity pose for an
      unknown handle. */
  function GetCenterPose(p: Provider, h: nat): (pose: Pose)
    ensures GetTrackableInfo(p, h).None? ==> pose == IdentityPose
    ensures GetTrackableInfo(p, h).Some? ==> pose == GetTrackableInfo(p, h).value.pose
  {
    match GetTrackableInfo(p, h)
    case Some(info) => info.pose
    case None => IdentityPose
  }

  /** `GetExtentX`, `GetExtentZ` and `GetSize`: zero for an unknown handle. */
  function GetSize(p: Provider, h: nat): (size: Vec2)
    ensures GetTrackableInfo(p, h).None? ==> size == Zero2
    ensures GetTrackableInfo(p, h).Some? ==>
      size == Vec2(GetTrackableInfo(p, h).value.extentX, GetTrackableInfo(p, h).value.extentZ)
  {
    match GetTrackableInfo(p, h)
    case Some(info) => Vec2(info.extentX, info.extentZ)
    case None => Zero2
  }

  function Handles(infos: seq<Info>): (hs: seq<nat>)
    ensures |hs| == |infos|
    ensures forall i :: 0 <= i < |infos| ==> hs[i] == infos[i].handle
  {
    if |infos| == 0 then [] else [infos[0].handle] + Handles(infos[1..])
  }

  /** `UpdateTrackables` of the emulator: the handles of the requested type
      in insertion order; no handle for any other type. */
  function ListHandles(p: Provider, kind: TrackableType): (hs: seq<nat>)
    ensures kind == TrackableImage ==> hs == Handles(p.images)
    ensures kind == TrackablePlane ==> hs == Handles(p.planes)
    ensures kind == TrackableBase ==> hs == []
  {
    match kind
    case TrackableImage => Handles(p.images)
    case TrackablePlane => Handles(p.planes)
    case TrackableBase => []
  }

  /** Every listed handle is known and of the requested type, and every
      entry of that type is listed. */
  lemma ListedHandlesHaveTheirType(p: Provider, kind: TrackableType)
    requires ProviderValid(p)
    ensures forall i :: 0 <= i < |ListHandles(p, kind)| ==>
      GetTrackableType(p, ListHandles(p, kind)[i]) == kind && ListHandles(p, kind)[i] != 0
  {
    var hs := ListHandles(p, kind);
    forall i | 0 <= i < |hs|
      ensures GetTrackableType(p, hs[i]) == kind && hs[i] != 0
    {
      if kind == TrackablePlane {
        assert hs[i] == p.planes[i].handle;
      }
    }
  }

  /** An existing identifier keeps its handle across updates, and a new one
      is found under the handle it was given. */
  lemma UpdateKeepsHandle(p: Provider, kind: TrackableType, pose: Pose, extentX: real,
                          extentZ: real, id: nat, state: TrackingState)
    requires ProviderValid(p) && kind == TrackableImage
    ensures var r := UpdateTrackableData(p, kind, pose, extentX, extentZ, id, state).0;
      var i := IndexOfId(p.images, id);
      && (i >= 0 ==> (GetTrackableInfo(r, p.images[i].handle) ==
            Some(p.images[i].(pose := pose, extentX := extentX, extentZ := extentZ, trackingState := state))))
      && (i < 0 ==> GetTrackableInfo(r, p.nextHandle) == Some(Info(pose, extentX, extentZ, id, p.nextHandle, state, kind)))
  {
    var r := UpdateTrackableData(p, kind, pose, extentX, extentZ, id, state).0;
    UpdateKeepsValid(p, kind, pose, extentX, extentZ, id, state);
    var i := IndexOfId(p.images, id);
    var target := if i >= 0 then i else |p.images|;
    var k := IndexOfHandle(r.images, r.images[target].handle);
    assert k == target;
  }

  /** A trackable object: `NRTrackablePlane` or `NRTrackableImage` over a
      native handle. */
  datatype Trackable = Trackable(handle: nat, kind: TrackableType)

  /** `NRTrackableQueryFilter`. */
  datatype QueryFilter = All | New

  /** The manager: the handle-to-trackable cache, the handles seen per type,
      every trackable in creation order, and those already reported. */
  datatype Manager = Manager(cache: map<nat, Trackable>, byType: map<TrackableType, set<nat>>,
                             all: seq<Trackable>, seen: set<Trackable>)

  const EmptyManager: Manager := Manager(map[], map[], [], {})

  /** The manager invariant: `all` lists each cached trackable exactly
      once, each under its own handle. */
  predicate ManagerValid(m: Manager) {
    && (forall i, j :: 0 <= i < j < |m.all| ==> m.all[i] != m.all[j])
    && (forall i :: 0 <= i < |m.all| ==> m.all[i].handle in m.cache && m.cache[m.all[i].handle] == m.all[i])
    && (forall h :: h in m.cache ==> m.cache[h] in m.all && m.cache[h].handle == h)
  }

  /** The exception for a handle of a type no trackable class exists for. */
  datatype ManagerError = NotImplemented

  /** `Create`: nothing for handle 0 or a stopped subsystem; the cached
      trackable for a known handle; otherwise a new plane or image, cached
      and appended to the full list, or the exception for any other type
      the subsystem reports. */
  function Create(m: Manager, h: nat, running: bool, typeOf: nat -> TrackableType): (r: Result<(Manager, Option<Trackable>), ManagerError>)
    ensures (h == 0 || !running) ==> r == Success((m, None))
    ensures h != 0 && running && h in m.cache ==> r == Success((m, Some(m.cache[h])))
    ensures r.Failure? <==> h != 0 && running && h !in m.cache && typeOf(h) == TrackableBase
    ensures r.Success? && h != 0 && running && h !in m.cache ==>
      && r.value.1 == Some(Trackable(h, typeOf(h)))
      && r.value.0.cache == m.cache[h := Trackable(h, typeOf(h))]
      && r.value.0.all == (if h in TypeHandles(m, typeOf(h)) then m.all else m.all + [Trackable(h, typeOf(h))])
      && r.value.0.seen == m.seen
  {
    if h == 0 || !running then Success((m, None))
    else if h in m.cache then Success((m, Some(m.cache[h])))
    else
      var kind := typeOf(h);
      if kind == TrackableBase then Failure(NotImplemented)
      else
        var t := Trackable(h, kind);
        var handles := TypeHandles(m, kind);
        if h !in handles then
          Success((m.(cache := m.cache[h := t], byType := m.byType[kind := handles + {h}], all := m.all + [t]), Some(t)))
        else
          Success((m.(cache := m.cache[h := t], byType := m.byType[kind := handles]), Some(t)))
  }

  /** The handles recorded for one type. */
  function TypeHandles(m: Manager, kind: TrackableType): set<nat> {
    if kind in m.byType then m.byType[kind] else {}
  }

  /** The per-type table only ever holds cached handles. */
  predicate TypeTableCached(m: Manager) {
    forall k, h :: k in m.byType && h in m.byType[k] ==> h in m.cache
  }

  /** `Create` keeps the invariant: the full list never gains a duplicate. */
  lemma CreateKeepsValid(m: Manager, h: nat, running: bool, typeOf: nat -> TrackableType)
    requires ManagerValid(m) && TypeTableCached(m)
    requires Create(m, h, running, typeOf).Success?
    ensures ManagerValid(Create(m, h, running, typeOf).value.0)
    ensures TypeTableCached(Create(m, h, running, typeOf).value.0)
  {
    if h != 0 && running && h !in m.cache {
      var kind := typeOf(h);
      var t := Trackable(h, kind);
      var handles := TypeHandles(m, kind);
      assert h !in handles;
      assert t !in m.all;
      var n := m.(cache := m.cache[h := t], byType := m.byType[kind := handles + {h}], all := m.all + [t]);
      assert Create(m, h, running, typeOf).value.0 == n;
      assert forall i :: 0 <= i < |m.all| ==> n.all[i] == m.all[i];
      assert n.all[|m.all|] == t;
      assert ManagerValid(n);
    }
  }

  /** The handle-creation loop of `UpdateTrackables`: stops at the first
      exception. The trackables created before it stay cached, so the result
      is the manager as the loop left it and the exception, if any. */
  function CreateAll(m: Manager, handles: seq<nat>, typeOf: nat -> TrackableType): (r: (Manager, Option<ManagerError>))
    ensures r.0.seen == m.seen && |r.0.all| >= |m.all| && r.0.all[..|m.all|] == m.all
    ensures forall h :: h in m.cache ==> h in r.0.cache && r.0.cache[h] == m.cache[h]
    ensures r.1.Some? ==> exists i :: 0 <= i < |handles| && handles[i] != 0 && typeOf(handles[i]) == TrackableBase
    decreases |handles|
  {
    if |handles| == 0 then (m, None)
    else
      match Create(m, handles[0], true, typeOf)
      case Failure(e) => (m, Some(e))
      case Success(c) =>
        var r := CreateAll(c.0, handles[1..], typeOf);
        assert r.0.all[..|m.all|] == r.0.all[..|c.0.all|][..|m.all|];
        assert r.1.Some? ==> exists i :: 0 <= i < |handles[1..]| && handles[1..][i] != 0 && typeOf(handles[1..][i]) == TrackableBase;
        r
  }

  lemma {:induction false} CreateAllKeepsValid(m: Manager, handles: seq<nat>, typeOf: nat -> TrackableType)
    requires ManagerValid(m) && TypeTableCached(m)
    ensures ManagerValid(CreateAll(m, handles, typeOf).0)
    ensures TypeTableCached(CreateAll(m, handles, typeOf).0)
    decreases |handles|
  {
    if |handles| > 0 && Create(m, handles[0], true, typeOf).Success? {
      CreateKeepsValid(m, handles[0], true, typeOf);
      var c := Create(m, handles[0], true, typeOf).value.0;
      CreateAllKeepsValid(c, handles[1..], typeOf);
    }
  }

  /** A handle listing for types the subsystem supports never makes the
      creation loop throw. */
  lemma {:induction false} CreateAllSucceeds(m: Manager, handles: seq<nat>, typeOf: nat -> TrackableType)
    requires forall i :: 0 <= i < |handles| ==> typeOf(handles[i]) != TrackableBase
    ensures CreateAll(m, handles, typeOf).1.None?
    decreases |handles|
  {
    if |handles| > 0 {
      var c := Create(m, handles[0], true, typeOf).value.0;
      CreateAllSucceeds(c, handles[1..], typeOf);
    }
  }

  /** A listing whose first unsupported handle comes after a new supported
      one leaves that earlier trackable cached and listed when the loop
      throws. */
  lemma PartialCreationKept(m: Manager, good: nat, bad: nat, typeOf: nat -> TrackableType)
    requires good != 0 && good !in m.cache && typeOf(good) != TrackableBase
    requires bad != 0 && bad != good && bad !in m.cache && typeOf(bad) == TrackableBase
    ensures var r := CreateAll(m, [good, bad], typeOf);
      && r.1 == Some(NotImplemented)
      && good in r.0.cache && r.0.cache[good] == Trackable(good, typeOf(good))
  {
    var c := Create(m, good, true, typeOf).value.0;
    assert [good, bad][1..] == [bad];
    assert CreateAll(c, [bad], typeOf) == (c, Some(NotImplemented));
  }

  /** `trackable is T`: the base class accepts every trackable. */
  predicate IsInstance(t: Trackable, cls: TrackableType) {
    cls == TrackableBase || t.kind == cls
  }

  function FilterInstances(ts: seq<Trackable>, cls: TrackableType): (r: seq<Trackable>)
    ensures forall t :: t in r <==> t in ts && IsInstance(t, cls)
    ensures |r| <= |ts|
  {
    if |ts| == 0 then []
    else (if IsInstance(ts[0], cls) then [ts[0]] else []) + FilterInstances(ts[1..], cls)
  }

  /** The trackables of the full list not reported yet, in order. */
  function Unseen(all: seq<Trackable>, seen: set<Trackable>): (r: seq<Trackable>)
    ensures forall t :: t in r <==> t in all && t !in seen
    ensures (forall t :: t in all ==> t in seen) ==> r == []
  {
    if |all| == 0 then []
    else (if all[0] !in seen then [all[0]] else []) + Unseen(all[1..], seen)
  }

  /** `GetTrackables<T>(list, filter)`: refreshes the trackables of `T`'s
      type from the subsystem's handle listing `handles` (only while
      running), marks every trackable not yet seen as new, and returns
      either all trackables or only the new ones that are instances of `T`.
      When the refresh throws, the exception escapes with the trackables
      created so far cached and nothing marked. */
  function GetTrackables(m: Manager, cls: TrackableType, filter: QueryFilter, running: bool,
                         handles: seq<nat>, typeOf: nat -> TrackableType)
    : (r: (Manager, Result<seq<Trackable>, ManagerError>))
    ensures r.1.Failure? ==> running && r.0 == CreateAll(m, handles, typeOf).0
    ensures r.1.Failure? <==> running && CreateAll(m, handles, typeOf).1.Some?
    ensures r.1.Success? ==> forall t :: t in r.0.all ==> t in r.0.seen
    ensures r.1.Success? ==> forall t :: t in r.1.value ==> IsInstance(t, cls) && t in r.0.all
    ensures r.1.Success? && filter == New ==>
      forall t :: t in r.1.value <==> t in r.0.all && IsInstance(t, cls) && t !in m.seen
    ensures r.1.Success? && filter == All ==>
      forall t :: t in r.1.value <==> t in r.0.all && IsInstance(t, cls)
  {
    var (updated, thrown) := if running then CreateAll(m, handles, typeOf) else (m, None);
    if thrown.Some? then (updated, Failure(thrown.value))
    else
      var newOnes := Unseen(updated.all, updated.seen);
      var m' := updated.(seen := updated.seen + set t | t in newOnes);
      var listed := if filter == All then FilterInstances(m'.all, cls) else FilterInstances(newOnes, cls);
      (m', Success(listed))
  }

  /** A New query right after another one, with no handle it has not
      already cached, reports nothing. */
  lemma NewQueryRepeatsEmpty(m: Manager, cls: TrackableType, f: QueryFilter, running: bool,
                             handles: seq<nat>, typeOf: nat -> TrackableType, cls2: TrackableType)
    requires GetTrackables(m, cls, f, running, handles, typeOf).1.Success?
    requires var m1 := GetTrackables(m, cls, f, running, handles, typeOf).0;
      forall i :: 0 <= i < |handles| ==> handles[i] == 0 || handles[i] in m1.cache
    ensures var m1 := GetTrackables(m, cls, f, running, handles, typeOf).0;
      var r := GetTrackables(m1, cls2, New, running, handles, typeOf);
      r.1.Success? && r.1.value == []
  {
    var m1 := GetTrackables(m, cls, f, running, handles, typeOf).0;
    if running {
      CreateAllKnown(m1, handles, typeOf);
    }
    var u := Unseen(m1.all, m1.seen);
    assert u == [];
    assert FilterInstances(u, cls2) == [];
    assert m1.seen + (set t | t in u) == m1.seen;
  }

  /** Creating trackables for handles already cached (or 0) changes
      nothing. */
  lemma {:induction false} CreateAllKnown(m: Manager, handles: seq<nat>, typeOf: nat -> TrackableType)
    requires forall i :: 0 <= i < |handles| ==> handles[i] == 0 || handles[i] in m.cache
    ensures CreateAll(m, handles, typeOf) == (m, None)
    decreases |handles|
  {
    if |handles| > 0 {
      CreateAllKnown(m, handles[1..], typeOf);
    }
  }

  /** `NRTrackable.GetDataBaseIndex`: the 32-bit identifier masked with
      0xFFFF, that is its low 16 bits. */
  function GetDataBaseIndex(identify: nat): (index: int)
    requires identify < 0x1_0000_0000
    ensures 0 <= index < 0x1_0000
    ensures identify < 0x1_0000 ==> index == identify
    ensures (identify - index) % 0x1_0000 == 0
  {
    identify % 0x1_0000
  }

  /** `NRTrackable.GetTrackingState`: Stopped unless the session runs. */
  function TrackableTrackingState(sessionRunning: bool, p: Provider, h: nat): (s: TrackingState)
    ensures !sessionRunning ==> s == Stopped
    ensures sessionRunning ==> s == GetTrackingState(p, h)
  {
    if !sessionRunning then Stopped else GetTrackingState(p, h)
  }

  /** `NRTrackable.GetTrackableType`: asks the subsystem and remembers the
      answer while the session runs; otherwise returns the remembered one.
      The result is the pair (answer, remembered type afterwards). */
  function TrackableTypeQuery(sessionRunning: bool, cached: TrackableType, p: Provider, h: nat): (r: (TrackableType, TrackableType))
    ensures r.0 == r.1
    ensures !sessionRunning ==> r.1 == cached
    ensures sessionRunning ==> r.1 == GetTrackableType(p, h)
  {
    if !sessionRunning then (cached, cached) else (GetTrackableType(p, h), GetTrackableType(p, h))
  }

  /** `NRTrackable.GetCenterPose` of the base class. */
  function BaseCenterPose(): (pose: Pose)
    ensures pose.position == Zero3 && pose.rotation == IdentityQuat
  {
    IdentityPose
  }
}
