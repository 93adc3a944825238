/** `NativeCameraProxy`: the bounded frame queue (`FixedSizedQueue`) that
    recycles dropped frames into a shared `ObjectPool`, the set of camera views
    fed by the proxy, and the initialized / playing / paused flags. Calls into
    the camera data provider have no effect on the modelled state and are left
    out; the frame counter and `MakeSafe`'s verdict are parameters. */
module CameraProxy {
  import opened Wrappers
  import ObjectPools

  /** The pool key of `FrameRawData`. */
  const FrameType: ObjectPools.TypeKey := 0

  /** `FramePool.InitCount` and `m_CameraFrames.Limit` as `Initialize` sets
      them. */
  const FramePoolInitCount: int := 10
  const FrameQueueLimit: int := 5

  /** A camera view (`CameraModelView`) by identity. */
  type ViewId = nat

  /** `FixedSizedQueue`: the frames, oldest first, and `Limit`. */
  datatype FrameQueue = FrameQueue(items: seq<ObjectPools.Obj>, limit: int)

  /** `FixedSizedQueue.Enqueue`: appends the frame; once the count exceeds
      `Limit`, the oldest frame is dequeued and put back into the pool. */
  function Enqueue(q: FrameQueue, pool: ObjectPools.ObjectPool, frame: ObjectPools.Obj)
    : (r: (FrameQueue, ObjectPools.ObjectPool))
    ensures r.0.limit == q.limit
    ensures |q.items| < q.limit ==> r.0.items == q.items + [frame] && r.1 == pool
    ensures 0 <= q.limit <= |q.items| ==>
      r.0.items == (q.items + [frame])[1..]
      && r.1 == ObjectPools.Put(pool, FrameType, (q.items + [frame])[0])
    ensures 0 <= q.limit && |q.items| <= q.limit ==> |r.0.items| <= q.limit
    ensures |r.0.items| > 0 ==> r.0.items[|r.0.items| - 1] == frame
  {
    var items := q.items + [frame];
    if |items| > q.limit then
      (FrameQueue(items[1..], q.limit), ObjectPools.Put(pool, FrameType, items[0]))
    else
      (FrameQueue(items, q.limit), pool)
  }

  /** `FixedSizedQueue.Dequeue`: returns the oldest frame and also puts it back
      into the pool (so the returned frame is shared with the pool); throws on
      an empty queue. */
  function Dequeue(q: FrameQueue, pool: ObjectPools.ObjectPool)
    : (r: Result<(ObjectPools.Obj, FrameQueue, ObjectPools.ObjectPool), string>)
    ensures |q.items| == 0 <==> r.Failure?
    ensures r.Success? ==>
      && r.value.0 == q.items[0]
      && r.value.1 == FrameQueue(q.items[1..], q.limit)
      && ObjectPools.QueueOf(r.value.2, FrameType) == ObjectPools.QueueOf(pool, FrameType) + [q.items[0]]
      && (forall u :: u != FrameType ==> ObjectPools.QueueOf(r.value.2, u) == ObjectPools.QueueOf(pool, u))
      && r.value.2.initCount == pool.initCount && r.value.2.nextFresh == pool.nextFresh
  {
    if |q.items| == 0 then Failure("InvalidOperationException: queue empty")
    else Success((q.items[0], FrameQueue(q.items[1..], q.limit), ObjectPools.Put(pool, FrameType, q.items[0])))
  }

  /** `FixedSizedQueue.Clear`: empties both the queue and the shared pool. */
  function ClearQueue(q: FrameQueue, pool: ObjectPools.ObjectPool): (r: (FrameQueue, ObjectPools.ObjectPool))
    ensures r.0.items == [] && r.0.limit == q.limit
    ensures forall t :: ObjectPools.QueueOf(r.1, t) == []
  {
    (FrameQueue([], q.limit), ObjectPools.Clear(pool))
  }

  /** Repeated enqueues never let the queue outgrow its limit, and the queue
      always holds the most recent frames. */
  lemma EnqueueAllBounded(q: FrameQueue, pool: ObjectPools.ObjectPool, frames: seq<ObjectPools.Obj>)
    requires 0 <= q.limit && |q.items| <= q.limit
    ensures |EnqueueAll(q, pool, frames).0.items| <= q.limit
    ensures |EnqueueAll(q, pool, frames).0.items| <= |q.items| + |frames|
    ensures EnqueueAll(q, pool, frames).0.limit == q.limit
    ensures var items := EnqueueAll(q, pool, frames).0.items;
      items == (q.items + frames)[|q.items| + |frames| - |items|..]
  {
    EnqueueAllSize(q, pool, frames);
    EnqueueAllKeepsRecent(q, pool, frames);
  }

  /** The size half of `EnqueueAllBounded`. */
  lemma {:induction false} EnqueueAllSize(q: FrameQueue, pool: ObjectPools.ObjectPool, frames: seq<ObjectPools.Obj>)
    requires 0 <= q.limit && |q.items| <= q.limit
    ensures |EnqueueAll(q, pool, frames).0.items| <= q.limit
    ensures |EnqueueAll(q, pool, frames).0.items| <= |q.items| + |frames|
    ensures EnqueueAll(q, pool, frames).0.limit == q.limit
    decreases |frames|
  {
    if |frames| > 0 {
      var step := Enqueue(q, pool, frames[0]);
      assert EnqueueAll(q, pool, frames) == EnqueueAll(step.0, step.1, frames[1..]);
      EnqueueAllSize(step.0, step.1, frames[1..]);
    }
  }

  /** The contents half of `EnqueueAllBounded`: the queue ends with the
      latest frames, in order. */
  lemma {:induction false} EnqueueAllKeepsRecent(q: FrameQueue, pool: ObjectPools.ObjectPool, frames: seq<ObjectPools.Obj>)
    requires 0 <= q.limit && |q.items| <= q.limit
    ensures |EnqueueAll(q, pool, frames).0.items| <= |q.items| + |frames|
    ensures var items := EnqueueAll(q, pool, frames).0.items;
      items == (q.items + frames)[|q.items| + |frames| - |items|..]
    decreases |frames|
  {
    EnqueueAllSize(q, pool, frames);
    if |frames| > 0 {
      var step := Enqueue(q, pool, frames[0]);
      var q1 := step.0;
      assert EnqueueAll(q, pool, frames) == EnqueueAll(q1, step.1, frames[1..]);
      EnqueueAllKeepsRecent(q1, step.1, frames[1..]);
      var items := EnqueueAll(q1, step.1, frames[1..]).0.items;
      if |q.items| < q.limit {
        RecentAfterAppend(q.items, frames, q1.items, items);
      } else {
        RecentAfterDrop(q.items, frames, q1.items, items);
      }
    }
  }

  /** The latest frames after a step that kept every queued frame. */
  lemma RecentAfterAppend<T>(xs: seq<T>, ys: seq<T>, mid: seq<T>, items: seq<T>)
    requires |ys| > 0 && mid == xs + [ys[0]] && |items| <= |mid| + |ys[1..]|
    requires items == (mid + ys[1..])[|mid| + |ys[1..]| - |items|..]
    ensures items == (xs + ys)[|xs| + |ys| - |items|..]
  {
    assert ys == [ys[0]] + ys[1..];
    assert (xs + [ys[0]]) + ys[1..] == xs + ys;
  }

  /** The latest frames after a step that dropped the oldest queued frame. */
  lemma RecentAfterDrop<T>(xs: seq<T>, ys: seq<T>, mid: seq<T>, items: seq<T>)
    requires |ys| > 0 && mid == (xs + [ys[0]])[1..] && |items| <= |mid| + |ys[1..]|
    requires items == (mid + ys[1..])[|mid| + |ys[1..]| - |items|..]
    ensures items == (xs + ys)[|xs| + |ys| - |items|..]
  {
    var all := xs + ys;
    assert ys == [ys[0]] + ys[1..];
    assert (xs + [ys[0]])[1..] + ys[1..] == all[1..];
    assert all[1..][|all| - 1 - |items|..] == all[|all| - |items|..];
  }

  /** Enqueues `frames` one after another. */
  function EnqueueAll(q: FrameQueue, pool: ObjectPools.ObjectPool, frames: seq<ObjectPools.Obj>)
    : (r: (FrameQueue, ObjectPools.ObjectPool))
    decreases |frames|
  {
    if |frames| == 0 then (q, pool)
    else
      var (q1, p1) := Enqueue(q, pool, frames[0]);
      EnqueueAll(q1, p1, frames[1..])
  }

  /** The proxy's fields. `pool` is `FramePool`, `frames` is `m_CameraFrames`,
      `active` is `m_ActiveTextures`; each is null until first created.
      `current` is the frame last handed out by `GetFrame`. */
  datatype Proxy = Proxy(
    initialized: bool,
    imageFormatSet: bool,
    playing: bool,
    paused: bool,
    pool: Option<ObjectPools.ObjectPool>,
    frames: Option<FrameQueue>,
    active: Option<seq<ViewId>>,
    lastFrame: int,
    current: Option<ObjectPools.Obj>)

  /** What the fields always satisfy: an initialized or playing proxy has its
      pool, queue and view list, and the queue respects its limit. */
  predicate Valid(p: Proxy) {
    && (p.playing ==> p.initialized)
    && (p.initialized ==> p.pool.Some? && p.frames.Some? && p.active.Some?)
    && (p.frames.Some? ==> p.frames.value.limit == FrameQueueLimit && |p.frames.value.items| <= FrameQueueLimit)
    && (p.frames.Some? ==> p.pool.Some?)
    && (p.active.Some? ==> NoDuplicates(p.active.value))
  }

  predicate NoDuplicates<T(==)>(s: seq<T>) {
    forall i, j :: 0 <= i < j < |s| ==> s[i] != s[j]
  }

  /** The constructor: all flags clear, then `Initialize`. */
  function NewProxy(poolIds: nat): (p: Proxy)
    ensures Valid(p) && p.initialized && !p.playing && !p.paused && !p.imageFormatSet
    ensures p.active == Some([]) && p.frames == Some(FrameQueue([], FrameQueueLimit))
  {
    Initialize(Proxy(false, false, false, false, None, None, None, -1, None), poolIds)
  }

  /** `Initialize`: a no-op once initialized; otherwise creates the pool
      (`InitCount` 10) and the queue (`Limit` 5) if missing and always a fresh
      empty view list. `poolIds` is the first id the new pool hands out. */
  function Initialize(p: Proxy, poolIds: nat): (p': Proxy)
    requires p.frames.Some? ==> p.frames.value.limit == FrameQueueLimit && |p.frames.value.items| <= FrameQueueLimit
    requires p.frames.Some? ==> p.pool.Some?
    requires p.playing ==> p.initialized
    requires p.initialized ==> Valid(p)
    ensures Valid(p') && p'.initialized
    ensures p.initialized ==> p' == p
    ensures !p.initialized ==> p'.active == Some([])
    ensures !p.initialized && p.pool.None? ==> p'.pool.value.initCount == FramePoolInitCount
    ensures !p.initialized && p.frames.None? ==> p'.frames == Some(FrameQueue([], FrameQueueLimit))
    ensures p'.playing == p.playing && p'.paused == p.paused && p'.imageFormatSet == p.imageFormatSet
  {
    if p.initialized then p
    else
      var pool := if p.pool.None? then Some(ObjectPools.NewObjectPool(poolIds).(initCount := FramePoolInitCount)) else p.pool;
      var frames := if p.frames.None? then Some(FrameQueue([], FrameQueueLimit)) else p.frames;
      p.(pool := pool, frames := frames, active := Some([]), initialized := true)
  }

  /** `Regist(view)`: creates the view list if missing and adds the view
      unless it is already there. */
  function Regist(p: Proxy, v: ViewId): (p': Proxy)
    requires Valid(p)
    ensures Valid(p')
    ensures p'.active.Some? && v in p'.active.value
    ensures p.active.Some? && v in p.active.value ==> p' == p
    ensures p.active.Some? && v !in p.active.value ==> p'.active == Some(p.active.value + [v])
    ensures p.active.None? ==> p'.active == Some([v])
    ensures p'.playing == p.playing && p'.paused == p.paused && p'.initialized == p.initialized
  {
    var list := p.active.GetOr([]);
    assert [] + [v] == [v];
    if v in list then p.(active := Some(list)) else p.(active := Some(list + [v]))
  }

  /** `Remove(view)`: drops the view if the list holds it, then logs the
      list's count. The log call is compiled only into DEBUG builds
      (`debugBuild`), and there, on a released proxy whose list is gone,
      reading the count throws after the (skipped) removal. */
  function Remove(p: Proxy, v: ViewId, debugBuild: bool): (r: Result<Proxy, string>)
    requires Valid(p)
    ensures r.Failure? <==> debugBuild && p.active.None?
    ensures r.Failure? ==> r.error == "NullReferenceException: view list released"
    ensures r.Success? ==> Valid(r.value)
    ensures r.Success? ==> (r.value.active.Some? <==> p.active.Some?)
    ensures r.Success? && p.active.Some? ==> v !in r.value.active.value
    ensures r.Success? && p.active.Some? ==>
      forall u :: u != v ==> (u in r.value.active.value <==> u in p.active.value)
    ensures r.Success? ==> r.value == p.(active := r.value.active)
  {
    var p' := if p.active.Some? && v in p.active.value then p.(active := Some(RemoveFirst(p.active.value, v))) else p;
    if debugBuild && p'.active.None? then Failure("NullReferenceException: view list released")
    else Success(p')
  }

  /** The position of the first occurrence of `x`. */
  function IndexOf(s: seq<ViewId>, x: ViewId): (k: nat)
    requires x in s
    ensures k < |s| && s[k] == x && x !in s[..k]
  {
    if s[0] == x then 0 else 1 + IndexOf(s[1..], x)
  }

  /** `List.Remove`: drops the first occurrence. */
  function RemoveFirst(s: seq<ViewId>, x: ViewId): (r: seq<ViewId>)
    requires x in s
    ensures |r| == |s| - 1
    ensures NoDuplicates(s) ==> x !in r && forall y :: y != x ==> (y in r <==> y in s)
    ensures NoDuplicates(s) ==> NoDuplicates(r)
  {
    var k := IndexOf(s, x);
    var r := s[..k] + s[k + 1..];
    assert forall i :: 0 <= i < |r| ==> r[i] == if i < k then s[i] else s[i + 1];
    assert forall y :: y in s && y != x ==> y in r by {
      forall y | y in s && y != x ensures y in r {
        var i :| 0 <= i < |s| && s[i] == y;
        if i < k { assert r[i] == y; } else { assert r[i - 1] == y; }
      }
    }
    r
  }

  /** `SetImageFormat`: initializes if needed; once a format has been set
      successfully, later calls do nothing. `accepted` is the provider's
      answer. */
  function SetImageFormat(p: Proxy, accepted: bool, poolIds: nat): (p': Proxy)
    requires Valid(p)
    ensures Valid(p') && p'.initialized
    ensures p'.imageFormatSet == (p.imageFormatSet || accepted)
    ensures p'.playing == p.playing && p'.paused == p.paused
  {
    var p1 := if !p.initialized then Initialize(p, poolIds) else p;
    if p1.imageFormatSet then p1 else p1.(imageFormatSet := accepted)
  }

  /** `Play`: initializes if needed, then starts playing unless already
      playing. */
  function Play(p: Proxy, poolIds: nat): (p': Proxy)
    requires Valid(p)
    ensures Valid(p') && p'.playing && p'.initialized
    ensures p.playing ==> p' == p
    ensures p'.paused == p.paused
  {
    var p1 := if !p.initialized then Initialize(p, poolIds) else p;
    if p1.playing then p1 else p1.(playing := true)
  }

  lemma PlayIdempotent(p: Proxy, i: nat, j: nat)
    requires Valid(p)
    ensures Play(Play(p, i), j) == Play(p, i)
  {
  }

  /** `Pause`: only a playing, unpaused proxy pauses. */
  function Pause(p: Proxy): (p': Proxy)
    requires Valid(p)
    ensures Valid(p')
    ensures p.playing && !p.paused ==> p' == p.(paused := true)
    ensures !(p.playing && !p.paused) ==> p' == p
  {
    if !p.playing || p.paused then p else p.(paused := true)
  }

  /** `Resume`: only a playing, paused proxy resumes. */
  function Resume(p: Proxy): (p': Proxy)
    requires Valid(p)
    ensures Valid(p')
    ensures p.playing && p.paused ==> p' == p.(paused := false)
    ensures !(p.playing && p.paused) ==> p' == p
  {
    if !p.playing || !p.paused then p else p.(paused := false)
  }

  /** `Release`: clears the queue (and with it the shared pool), drops the
      queue and the view list, and clears the initialized, format and playing
      flags. The paused flag is left as it was. */
  function Release(p: Proxy): (p': Proxy)
    requires Valid(p) && p.frames.Some?
    ensures Valid(p')
    ensures !p'.initialized && !p'.playing && !p'.imageFormatSet
    ensures p'.frames.None? && p'.active.None? && p'.current.None?
    ensures p'.paused == p.paused
    ensures p'.pool.Some? && forall t :: ObjectPools.QueueOf(p'.pool.value, t) == []
  {
    var (_, pool) := ClearQueue(p.frames.value, p.pool.value);
    p.(pool := Some(pool), frames := None, current := None, active := None,
       initialized := false, imageFormatSet := false, playing := false)
  }

  /** `Stop`: a playing proxy stops, and releases everything, only once no
      view is registered any more. */
  function Stop(p: Proxy): (p': Proxy)
    requires Valid(p)
    ensures Valid(p')
    ensures !p.playing ==> p' == p
    ensures p.playing && |p.active.value| > 0 ==> p' == p
    ensures p.playing && |p.active.value| == 0 ==> p' == Release(p)
    ensures p'.playing <==> p.playing && |p.active.value| > 0
  {
    if !p.playing then p
    else if |p.active.value| == 0 then Release(p)
    else p
  }

  /** `HasFrame` at engine frame `frameCount`: always true in the frame the
      last frame was taken, else playing with a frame queued. */
  predicate HasFrame(p: Proxy, frameCount: int)
    requires Valid(p)
  {
    frameCount == p.lastFrame || (p.playing && |p.frames.value.items| > 0)
  }

  /** When `HasFrame` answers true in a new engine frame, `GetFrame` hands
      out the oldest queued frame; when it answers false for a playing proxy,
      `GetFrame` hands out the frame it returned before. */
  lemma HasFrameAgreesWithGetFrame(p: Proxy, frameCount: int)
    requires Valid(p)
    ensures HasFrame(p, frameCount) && frameCount != p.lastFrame ==>
      GetFrame(p, frameCount).Success? && GetFrame(p, frameCount).value.0 == Some(p.frames.value.items[0])
    ensures !HasFrame(p, frameCount) && p.playing ==> GetFrame(p, frameCount) == Success((p.current, p))
  {
  }

  /** `GetFrame` at engine frame `frameCount`: takes the oldest queued frame
      at most once per engine frame and returns the current frame. Without a
      queue (after `Release`) the count read throws. */
  function GetFrame(p: Proxy, frameCount: int): (r: Result<(Option<ObjectPools.Obj>, Proxy), string>)
    requires Valid(p)
    ensures frameCount == p.lastFrame ==> r == Success((p.current, p))
    ensures frameCount != p.lastFrame && p.frames.None? ==> r.Failure?
    ensures frameCount != p.lastFrame && p.frames.Some? && |p.frames.value.items| > 0 ==>
      r.Success? && r.value.0 == Some(p.frames.value.items[0])
      && r.value.1.frames.Some? && r.value.1.frames.value.items == p.frames.value.items[1..]
      && r.value.1.lastFrame == frameCount
    ensures frameCount != p.lastFrame && p.frames.Some? && |p.frames.value.items| == 0 ==>
      r == Success((p.current, p))
    ensures r.Success? ==> Valid(r.value.1) && r.value.1.playing == p.playing
  {
    if frameCount == p.lastFrame then Success((p.current, p))
    else if p.frames.None? then Failure("NullReferenceException: frame queue released")
    else
      match Dequeue(p.frames.value, p.pool.value)
      case Failure(_) => Success((p.current, p))
      case Success((f, q, pool)) =>
        var p' := p.(frames := Some(q), pool := Some(pool), current := Some(f), lastFrame := frameCount);
        Success((p'.current, p'))
  }

  /** `QueueFrame`: ignored unless playing; otherwise takes a frame object from
      the pool, and queues it if `MakeSafe` succeeded (`copied`) or returns it
      to the pool if not. A pool that can neither hand out nor create a
      frame throws out of the call, with the pool as `Get` left it. */
  function QueueFrame(p: Proxy, copied: bool): (r: (Proxy, Option<string>))
    requires Valid(p)
    ensures Valid(r.0)
    ensures !p.playing ==> r == (p, None)
    ensures r.1.Some? <==>
      (p.playing && p.pool.value.initCount <= 0 && |ObjectPools.QueueOf(p.pool.value, FrameType)| == 0)
    ensures r.1.Some? ==>
      r.1.value == "InvalidOperationException: queue empty" && r.0 == p.(pool := r.0.pool)
    ensures p.playing && copied && p.pool.value.initCount > 0 ==>
      r.0.frames.Some? &&
      |r.0.frames.value.items| == if |p.frames.value.items| < FrameQueueLimit then |p.frames.value.items| + 1 else FrameQueueLimit
    ensures p.playing && !copied ==> r.0.frames == p.frames
    ensures r.0.playing == p.playing && r.0.paused == p.paused && r.0.active == p.active
  {
    if !p.playing then (p, None)
    else
      match ObjectPools.Get(p.pool.value, FrameType)
      case EmptyQueue(pool) => (p.(pool := Some(pool)), Some("InvalidOperationException: queue empty"))
      case Got(f, pool) =>
        if copied then
          var (q, pool') := Enqueue(p.frames.value, pool, f);
          (p.(frames := Some(q), pool := Some(pool')), None)
        else
          (p.(pool := Some(ObjectPools.Put(pool, FrameType, f))), None)
  }

  /** Play, pause and stop with no view registered; then play again: the
      proxy is playing but still flagged paused, so the next `Pause` does
      nothing. */
  lemma PauseLostAfterRestart(p: Proxy, i: nat, j: nat)
    requires Valid(p) && !p.playing && !p.paused && p.initialized && p.active == Some([])
    ensures var p1 := Play(Stop(Pause(Play(p, i))), j);
      p1.playing && p1.paused && Pause(p1) == p1
  {
  }

  /** `Release` with the paused flag also cleared. */
  function ReleaseFixed(p: Proxy): (p': Proxy)
    requires Valid(p) && p.frames.Some?
    ensures Valid(p') && !p'.paused && !p'.playing && !p'.initialized
    ensures p'.frames.None? && p'.active.None?
  {
    Release(p).(paused := false)
  }

  /** `Stop` over `ReleaseFixed`. */
  function StopFixed(p: Proxy): (p': Proxy)
    requires Valid(p)
    ensures Valid(p')
    ensures !p'.playing ==> !p'.paused || p' == p
  {
    if !p.playing then p
    else if |p.active.value| == 0 then ReleaseFixed(p)
    else p
  }

  /** With the corrected release, stopping and playing again yields a proxy
      that the next `Pause` pauses. */
  lemma PauseWorksAfterFixedRestart(p: Proxy, i: nat, j: nat)
    requires Valid(p) && !p.playing && !p.paused && p.initialized && p.active == Some([])
    ensures var p1 := Play(StopFixed(Pause(Play(p, i))), j);
      p1.playing && !p1.paused && Pause(p1).paused
  {
  }
}
