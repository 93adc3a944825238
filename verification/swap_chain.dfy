/** `NRSwapChainManager`'s overlay list: adding and removing overlays
    (deferred to a task queue until the swap chain runs), the list kept in
    composition-depth order, the consecutive viewport indices of active
    overlays, the protected-content switch, the focus plane, and an overlay's
    own add-once/remove-once registration. Native swap chain calls are left
    out. */
module SwapChain {
  import opened Wrappers
  import Geometry

  /** The most overlays the list may hold when one more is added. */
  const MaxOverlayCount: nat := 7

  /** An overlay as the manager sees it. `id` stands for the object's
      identity, which is what `List.Contains` and `List.Remove` compare. */
  datatype OverlayInfo = OverlayInfo(id: int, compositionDepth: int, isActive: bool, viewPortCount: nat, isProtectedContent: bool)

  /** A deferred `AddLayer` or `RemoveLayer`. */
  datatype Task = AddTask(overlay: OverlayInfo) | RemoveTask(id: int)

  /** The list, the task queue, the protected-content flag and the codec
      calls made so far (true for "start", false for "stop"). */
  datatype Manager = Manager(overlays: seq<OverlayInfo>, tasks: seq<Task>, useProtectContent: bool, codecCalls: seq<bool>)

  /** `NotSupportedException` once the list is full. */
  datatype SwapChainError = NotSupported

  const NewManager: Manager := Manager([], [], false, [])

  predicate Listed(overlays: seq<OverlayInfo>, id: int) {
    exists i :: 0 <= i < |overlays| && overlays[i].id == id
  }

  predicate SortedByDepth(overlays: seq<OverlayInfo>) {
    forall i, j :: 0 <= i < j < |overlays| ==> overlays[i].compositionDepth <= overlays[j].compositionDepth
  }

  /** `Overlays.Add` then `Overlays.Sort()`, which orders by composition
      depth. `List.Sort` is not stable; the model places the new overlay
      after those of equal depth, one of the orders it may produce. */
  function InsertByDepth(overlays: seq<OverlayInfo>, o: OverlayInfo): (r: seq<OverlayInfo>)
    ensures |r| == |overlays| + 1
    ensures multiset(r) == multiset(overlays) + multiset{o}
    ensures SortedByDepth(overlays) ==> SortedByDepth(r)
    decreases |overlays|
  {
    if |overlays| == 0 then [o]
    else if o.compositionDepth < overlays[0].compositionDepth then [o] + overlays
    else
      var rest := InsertByDepth(overlays[1..], o);
      assert overlays == [overlays[0]] + overlays[1..];
      InsertStepSorted(overlays, o, rest);
      [overlays[0]] + rest
  }

  /** The recursive step of `InsertByDepth` keeps a sorted list sorted. */
  lemma InsertStepSorted(overlays: seq<OverlayInfo>, o: OverlayInfo, rest: seq<OverlayInfo>)
    requires |overlays| > 0 && overlays[0].compositionDepth <= o.compositionDepth
    requires SortedByDepth(overlays[1..]) ==> SortedByDepth(rest)
    requires multiset(rest) == multiset(overlays[1..]) + multiset{o}
    ensures SortedByDepth(overlays) ==> SortedByDepth([overlays[0]] + rest)
  {
    if SortedByDepth(overlays) {
      SortedTail(overlays);
      PrependSorted(overlays[0], overlays[1..], o, rest);
    }
  }

  /** The tail of a sorted list is sorted and no shallower than its head. */
  lemma SortedTail(overlays: seq<OverlayInfo>)
    requires |overlays| > 0 && SortedByDepth(overlays)
    ensures SortedByDepth(overlays[1..])
    ensures forall j :: 0 <= j < |overlays[1..]| ==> overlays[0].compositionDepth <= overlays[1..][j].compositionDepth
  {
    forall j | 0 <= j < |overlays[1..]|
      ensures overlays[0].compositionDepth <= overlays[1..][j].compositionDepth
    {
      assert overlays[1..][j] == overlays[j + 1];
    }
  }

  /** An overlay no deeper than anything in `tail` nor than `o` can head a
      sorted permutation of `tail` with `o` added. */
  lemma PrependSorted(x: OverlayInfo, tail: seq<OverlayInfo>, o: OverlayInfo, rest: seq<OverlayInfo>)
    requires SortedByDepth(rest) && multiset(rest) == multiset(tail) + multiset{o}
    requires forall j :: 0 <= j < |tail| ==> x.compositionDepth <= tail[j].compositionDepth
    requires x.compositionDepth <= o.compositionDepth
    ensures SortedByDepth([x] + rest)
  {
    forall j | 0 <= j < |rest|
      ensures x.compositionDepth <= rest[j].compositionDepth
    {
      assert rest[j] in multiset(rest);
      if rest[j] != o {
        assert rest[j] in multiset(tail);
        var k :| 0 <= k < |tail| && tail[k] == rest[j];
      }
    }
    var es := [x] + rest;
    forall i, j | 0 <= i < j < |es|
      ensures es[i].compositionDepth <= es[j].compositionDepth
    {
      assert es[j] == rest[j - 1];
      if i > 0 {
        assert es[i] == rest[i - 1];
      }
    }
  }

  /** The position of the first entry with this identity. */
  function FirstIndex(overlays: seq<OverlayInfo>, id: int): (k: nat)
    requires Listed(overlays, id)
    ensures k < |overlays| && overlays[k].id == id
    ensures forall i :: 0 <= i < k ==> overlays[i].id != id
    decreases |overlays|
  {
    if overlays[0].id == id then 0
    else
      assert Listed(overlays[1..], id) by {
        var i :| 0 <= i < |overlays| && overlays[i].id == id;
        assert overlays[1..][i - 1] == overlays[i];
      }
      var k := FirstIndex(overlays[1..], id);
      assert forall i :: 1 <= i < k + 1 ==> overlays[i] == overlays[1..][i - 1];
      k + 1
  }

  /** `Overlays.Remove`: drops the first entry with this identity. */
  function RemoveFirst(overlays: seq<OverlayInfo>, id: int): (r: seq<OverlayInfo>)
    ensures !Listed(overlays, id) ==> r == overlays
    ensures Listed(overlays, id) ==> |r| == |overlays| - 1 && multiset(r) + multiset{overlays[FirstIndex(overlays, id)]} == multiset(overlays)
    ensures SortedByDepth(overlays) ==> SortedByDepth(r)
  {
    if !Listed(overlays, id) then overlays
    else
      var k := FirstIndex(overlays, id);
      var r := overlays[..k] + overlays[k + 1..];
      assert overlays == overlays[..k] + [overlays[k]] + overlays[k + 1..];
      DeleteKeepsSorted(overlays, k);
      r
  }

  /** Deleting one entry keeps a sorted list sorted. */
  lemma DeleteKeepsSorted(overlays: seq<OverlayInfo>, k: nat)
    requires k < |overlays|
    ensures SortedByDepth(overlays) ==> SortedByDepth(overlays[..k] + overlays[k + 1..])
  {
    var r := overlays[..k] + overlays[k + 1..];
    if SortedByDepth(overlays) {
      forall i, j | 0 <= i < j < |r|
        ensures r[i].compositionDepth <= r[j].compositionDepth
      {
        var i' := if i < k then i else i + 1;
        var j' := if j < k then j else j + 1;
        assert r[i] == overlays[i'] && r[j] == overlays[j'];
      }
    }
  }

  /** Whether some overlay holds protected content. */
  predicate AnyProtected(overlays: seq<OverlayInfo>) {
    exists i :: 0 <= i < |overlays| && overlays[i].isProtectedContent
  }

  /** `UpdateProtectContentSetting`: when the need for protected content
      changes, the codec is started or stopped and the flag follows. */
  function UpdateProtectContent(m: Manager): (r: Manager)
    ensures r.useProtectContent <==> AnyProtected(m.overlays)
    ensures r.overlays == m.overlays && r.tasks == m.tasks
    ensures m.useProtectContent == AnyProtected(m.overlays) ==> r.codecCalls == m.codecCalls
    ensures m.useProtectContent != AnyProtected(m.overlays) ==> r.codecCalls == m.codecCalls + [AnyProtected(m.overlays)]
  {
    var flag := AnyProtected(m.overlays);
    if flag != m.useProtectContent then m.(useProtectContent := flag, codecCalls := m.codecCalls + [flag]) else m
  }

  /** `AddLayer`: the overlay joins the list in depth order. */
  function AddLayer(m: Manager, o: OverlayInfo): (r: Manager)
    ensures r.overlays == InsertByDepth(m.overlays, o) && r.tasks == m.tasks
    ensures r.useProtectContent <==> AnyProtected(r.overlays)
  {
    UpdateProtectContent(m.(overlays := InsertByDepth(m.overlays, o)))
  }

  /** `RemoveLayer`: the overlay leaves the list (viewport indices are then
      renumbered, see `ViewPortIndices`). */
  function RemoveLayer(m: Manager, id: int): (r: Manager)
    ensures r.overlays == RemoveFirst(m.overlays, id) && r.tasks == m.tasks
    ensures r.useProtectContent <==> AnyProtected(r.overlays)
  {
    UpdateProtectContent(m.(overlays := RemoveFirst(m.overlays, id)))
  }

  /** `Add`: an overlay already in the list is ignored; a full list throws;
      otherwise it is added now when the swap chain runs, or queued. Queued
      additions are not counted and not checked for duplicates. */
  function Add(m: Manager, o: OverlayInfo, running: bool): (r: Result<Manager, SwapChainError>)
    ensures Listed(m.overlays, o.id) ==> r == Success(m)
    ensures r.Failure? <==> !Listed(m.overlays, o.id) && |m.overlays| == MaxOverlayCount
    ensures r.Success? && !Listed(m.overlays, o.id) && running ==> r.value == AddLayer(m, o)
    ensures r.Success? && !Listed(m.overlays, o.id) && !running ==> r.value == m.(tasks := m.tasks + [AddTask(o)])
  {
    if Listed(m.overlays, o.id) then Success(m)
    else if |m.overlays| == MaxOverlayCount then Failure(NotSupported)
    else if running then Success(AddLayer(m, o))
    else Success(m.(tasks := m.tasks + [AddTask(o)]))
  }

  /** `Remove`: an overlay not in the list is ignored; otherwise it is
      removed now when the swap chain runs, or queued. */
  function Remove(m: Manager, id: int, running: bool): (r: Manager)
    ensures !Listed(m.overlays, id) ==> r == m
    ensures Listed(m.overlays, id) && running ==> r == RemoveLayer(m, id)
    ensures Listed(m.overlays, id) && !running ==> r == m.(tasks := m.tasks + [RemoveTask(id)])
  {
    if !Listed(m.overlays, id) then m
    else if running then RemoveLayer(m, id)
    else m.(tasks := m.tasks + [RemoveTask(id)])
  }

  /** Runs queued tasks in order. */
  function RunTasks(m: Manager, tasks: seq<Task>): (r: Manager)
    ensures r.tasks == m.tasks
    ensures SortedByDepth(m.overlays) ==> SortedByDepth(r.overlays)
    decreases |tasks|
  {
    if |tasks| == 0 then m
    else
      var next := match tasks[0]
        case AddTask(o) => AddLayer(m, o)
        case RemoveTask(id) => RemoveLayer(m, id);
      RunTasks(next, tasks[1..])
  }

  /** `Update`: once the swap chain is running (and not being torn down),
      the whole queue is run, oldest first, and emptied. */
  function Update(m: Manager, ready: bool): (r: Manager)
    ensures !ready ==> r == m
    ensures ready ==> r.tasks == [] && (SortedByDepth(m.overlays) ==> SortedByDepth(r.overlays))
  {
    if !ready then m else RunTasks(m, m.tasks).(tasks := [])
  }

  /** Adding while running keeps the list within `MaxOverlayCount` and in
      depth order. */
  lemma RunningAddKeepsInvariant(m: Manager, o: OverlayInfo)
    requires |m.overlays| <= MaxOverlayCount && SortedByDepth(m.overlays)
    ensures var r := Add(m, o, true);
      r.Success? ==> |r.value.overlays| <= MaxOverlayCount && SortedByDepth(r.value.overlays)
  {
  }

  /** The queue is not consulted by `Remove`: an overlay added and then
      removed before the swap chain runs is still in the list once it does. */
  lemma QueuedAddOutlivesRemove(o: OverlayInfo)
    ensures var m1 := Add(NewManager, o, false);
      && m1.Success?
      && var m2 := Remove(m1.value, o.id, false);
      Listed(Update(m2, true).overlays, o.id)
  {
    var m1 := Add(NewManager, o, false).value;
    assert !Listed(NewManager.overlays, o.id);
    var m2 := Remove(m1, o.id, false);
    assert m2 == m1;
    assert m2.tasks == [AddTask(o)];
    var added := AddLayer(m2, o);
    assert added.overlays == [o];
    assert RunTasks(m2, m2.tasks) == RunTasks(added, []);
    assert Listed(added.overlays, o.id);
  }

  /** The viewport indices `UpdateOverlayViewPortIndex` hands out from
      `next` on: each active overlay's viewports get the following
      consecutive numbers, in list order; inactive overlays get none. */
  function ViewPortIndices(overlays: seq<OverlayInfo>, next: int): (r: seq<seq<int>>)
    ensures |r| == |overlays|
    decreases |overlays|
  {
    if |overlays| == 0 then []
    else
      var count := if overlays[0].isActive then overlays[0].viewPortCount else 0;
      [Range(next, count)] + ViewPortIndices(overlays[1..], next + count)
  }

  /** `count` consecutive numbers from `start`. */
  function Range(start: int, count: nat): (r: seq<int>)
    ensures |r| == count && forall i :: 0 <= i < count ==> r[i] == start + i
  {
    seq(count, i requires 0 <= i < count => start + i)
  }

  function Flatten(s: seq<seq<int>>): seq<int>
    decreases |s|
  {
    if |s| == 0 then [] else s[0] + Flatten(s[1..])
  }

  /** The number of viewports of active overlays. */
  function ActiveViewPorts(overlays: seq<OverlayInfo>): nat
    decreases |overlays|
  {
    if |overlays| == 0 then 0
    else (if overlays[0].isActive then overlays[0].viewPortCount else 0) + ActiveViewPorts(overlays[1..])
  }

  /** All indices handed out, in list order, are 0, 1, 2, ... up to the
      number of active viewports: consecutive and without gaps. */
  lemma {:induction false} ViewPortIndicesAreConsecutive(overlays: seq<OverlayInfo>, next: int)
    ensures Flatten(ViewPortIndices(overlays, next)) == Range(next, ActiveViewPorts(overlays))
    decreases |overlays|
  {
    if |overlays| > 0 {
      var count := if overlays[0].isActive then overlays[0].viewPortCount else 0;
      ViewPortIndicesAreConsecutive(overlays[1..], next + count);
      var rest := ActiveViewPorts(overlays[1..]);
      assert Range(next, count) + Range(next + count, rest) == Range(next, count + rest);
    }
  }

  /** `SetFocusPlane`: the point and normal, their OpenGL copies with z
      negated, the reference space, and the frame flag marking the change. */
  datatype FocusPlane = FocusPlane(point: Geometry.Vec3, pointGL: Geometry.Vec3, normal: Geometry.Vec3, normalGL: Geometry.Vec3, spaceType: int, focusChanged: bool)

  function FlipZ(v: Geometry.Vec3): (r: Geometry.Vec3)
    ensures r.x == v.x && r.y == v.y && r.z == -v.z
  {
    Geometry.Vec3(v.x, v.y, -v.z)
  }

  function SetFocusPlane(point: Geometry.Vec3, normal: Geometry.Vec3, spaceType: int): (f: FocusPlane)
    ensures f.point == point && f.normal == normal && f.spaceType == spaceType && f.focusChanged
    ensures FlipZ(f.pointGL) == point && FlipZ(f.normalGL) == normal
  {
    FocusPlane(point, FlipZ(point), normal, FlipZ(normal), spaceType, true)
  }

  /** An overlay's own registration: `alreadyAddedToSwapChain` and the
      manager, which may be absent. */
  datatype Registration = Registration(alreadyAdded: bool, manager: Option<Manager>)

  /** `InitAndActive`: adds the overlay once; the flag is set even when there
      is no manager to add to, and not when `Add` throws. */
  function InitAndActive(reg: Registration, o: OverlayInfo, running: bool): (r: Result<Registration, SwapChainError>)
    ensures reg.alreadyAdded ==> r == Success(reg)
    ensures r.Success? ==> r.value.alreadyAdded
    ensures !reg.alreadyAdded && reg.manager.None? ==> r == Success(Registration(true, None))
  {
    if reg.alreadyAdded then Success(reg)
    else match reg.manager
      case None => Success(Registration(true, None))
      case Some(m) =>
        var m' :- Add(m, o, running);
        Success(Registration(true, Some(m')))
  }

  /** `Destroy`: removes the overlay only if it was added, and only once. */
  function Destroy(reg: Registration, id: int, running: bool): (r: Registration)
    ensures !reg.alreadyAdded ==> r == reg
    ensures !r.alreadyAdded
    ensures reg.alreadyAdded && reg.manager.Some? ==> r.manager == Some(Remove(reg.manager.value, id, running))
  {
    if !reg.alreadyAdded then reg
    else Registration(false, match reg.manager case None => None case Some(m) => Some(Remove(m, id, running)))
  }

  /** A second `InitAndActive` or `Destroy` in a row changes nothing. */
  lemma RegistrationIsOnce(reg: Registration, o: OverlayInfo, running: bool)
    ensures var r := InitAndActive(reg, o, running);
      r.Success? ==> InitAndActive(r.value, o, running) == r
    ensures var d := Destroy(reg, o.id, running);
      Destroy(d, o.id, running) == d
  {
  }

  /** Added while running into an empty list and then destroyed, the
      overlay leaves the list again. */
  lemma AddThenDestroyRestoresList(o: OverlayInfo)
    ensures var r := InitAndActive(Registration(false, Some(NewManager)), o, true);
      && r.Success?
      && Destroy(r.value, o.id, true).manager.value.overlays == []
  {
    var m := AddLayer(NewManager, o);
    assert m.overlays == [o];
    assert Listed(m.overlays, o.id);
  }
}
