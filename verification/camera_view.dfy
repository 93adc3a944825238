/** `CameraModelView`: the Playing / Paused / Stopped machine of a camera view,
    its frame counter and its subscription to the per-frame update event,
    acting on the shared camera proxy. */
module CameraView {
  import opened Wrappers
  import CameraProxy
  import ObjectPools

  datatype State = Playing | Paused | Stopped

  /** The view's own fields: its identity as registered with the proxy, its
      state, `FrameCount`, and how many times `UpdateTexture` is subscribed to
      the kernel's update event. */
  datatype View = View(id: CameraProxy.ViewId, state: State, frameCount: nat, subscriptions: nat)

  /** `UpdateTexture` is subscribed exactly while playing. */
  predicate Subscribed(v: View) {
    v.subscriptions == if v.state == Playing then 1 else 0
  }

  /** The default constructor: Stopped, nothing counted, not subscribed,
      and not yet known to any proxy. */
  function NewView(id: CameraProxy.ViewId): (v: View)
    ensures v.id == id && v.state == Stopped && v.frameCount == 0 && v.subscriptions == 0
  {
    View(id, Stopped, 0, 0)
  }

  /** The format constructor: a new view that sets the image format on the
      proxy the factory hands out (`accepted` is the provider's answer) and
      registers itself with it. */
  function NewViewWithFormat(id: CameraProxy.ViewId, p: CameraProxy.Proxy, accepted: bool, poolIds: nat)
    : (r: (View, CameraProxy.Proxy))
    requires CameraProxy.Valid(p)
    ensures r.0 == NewView(id)
    ensures CameraProxy.Valid(r.1) && r.1.initialized
    ensures r.1.active.Some? && id in r.1.active.value
    ensures p.active.Some? && p.initialized ==>
      forall u :: u in r.1.active.value <==> u == id || u in p.active.value
    ensures r.1.imageFormatSet == (p.imageFormatSet || accepted)
    ensures r.1.playing == p.playing && r.1.paused == p.paused
  {
    (NewView(id), CameraProxy.Regist(CameraProxy.SetImageFormat(p, accepted, poolIds), id))
  }

  /** `OnUpdate -= UpdateTexture`: removes one subscription if there is one. */
  function Unsubscribe(n: nat): nat {
    if n > 0 then n - 1 else 0
  }

  /** `Play`: a no-op when already playing; otherwise plays the proxy,
      registers the view with it, subscribes and becomes Playing. */
  function Play(v: View, p: CameraProxy.Proxy, poolIds: nat): (r: (View, CameraProxy.Proxy))
    requires CameraProxy.Valid(p)
    ensures CameraProxy.Valid(r.1)
    ensures v.state == Playing ==> r == (v, p)
    ensures r.0.state == Playing && r.0.frameCount == v.frameCount
    ensures Subscribed(v) ==> Subscribed(r.0)
    ensures v.state != Playing ==> r.1.playing && v.id in r.1.active.value
  {
    if v.state == Playing then (v, p)
    else
      var p1 := CameraProxy.Regist(CameraProxy.Play(p, poolIds), v.id);
      (v.(state := Playing, subscriptions := v.subscriptions + 1), p1)
  }

  /** `Pause`: only a playing view pauses; the proxy is paused and the update
      subscription dropped. */
  function Pause(v: View, p: CameraProxy.Proxy): (r: (View, CameraProxy.Proxy))
    requires CameraProxy.Valid(p)
    ensures CameraProxy.Valid(r.1)
    ensures v.state != Playing ==> r == (v, p)
    ensures v.state == Playing ==> r.0.state == Paused && r.1 == CameraProxy.Pause(p)
    ensures Subscribed(v) ==> Subscribed(r.0)
    ensures r.0.frameCount == v.frameCount
  {
    if v.state != Playing then (v, p)
    else (v.(state := Paused, subscriptions := Unsubscribe(v.subscriptions)), CameraProxy.Pause(p))
  }

  /** `Resume`: only a paused view resumes. */
  function Resume(v: View, p: CameraProxy.Proxy): (r: (View, CameraProxy.Proxy))
    requires CameraProxy.Valid(p)
    ensures CameraProxy.Valid(r.1)
    ensures v.state != Paused ==> r == (v, p)
    ensures v.state == Paused ==> r.0.state == Playing && r.1 == CameraProxy.Resume(p)
    ensures Subscribed(v) ==> Subscribed(r.0)
    ensures r.0.frameCount == v.frameCount
  {
    if v.state == Paused then
      (v.(state := Playing, subscriptions := v.subscriptions + 1), CameraProxy.Resume(p))
    else (v, p)
  }

  /** `Stop`: from Playing or Paused, unregisters the view, asks the proxy to
      stop, unsubscribes, and resets the frame counter. In a DEBUG build,
      `Remove` throws on a proxy whose view list was released, before
      anything has changed. */
  function Stop(v: View, p: CameraProxy.Proxy, debugBuild: bool): (r: Result<(View, CameraProxy.Proxy), string>)
    requires CameraProxy.Valid(p)
    ensures v.state == Stopped ==> r == Success((v, p))
    ensures r.Failure? <==> v.state != Stopped && debugBuild && p.active.None?
    ensures r.Success? ==> CameraProxy.Valid(r.value.1)
    ensures r.Success? && v.state != Stopped ==> r.value.0.state == Stopped && r.value.0.frameCount == 0
    ensures r.Success? && v.state != Stopped && p.active.Some? ==>
      r.value.1.active.None? || v.id !in r.value.1.active.value
    ensures r.Success? && Subscribed(v) ==> Subscribed(r.value.0)
  {
    if v.state == Stopped then Success((v, p))
    else
      var p0 :- CameraProxy.Remove(p, v.id, debugBuild);
      var p1 := CameraProxy.Stop(p0);
      Success((v.(state := Stopped, frameCount := 0, subscriptions := Unsubscribe(v.subscriptions)), p1))
  }

  /** `UpdateTexture` at engine frame `frameCount`: does nothing unless the
      proxy has a frame and the view is playing; otherwise fetches the frame
      and counts it when it carries data (`hasData` says which frame objects
      do). Fetching from a released proxy throws. */
  function UpdateTexture(v: View, p: CameraProxy.Proxy, frameCount: int, hasData: ObjectPools.Obj -> bool)
    : (r: Result<(View, CameraProxy.Proxy), string>)
    requires CameraProxy.Valid(p)
    ensures !CameraProxy.HasFrame(p, frameCount) || v.state != Playing ==> r == Success((v, p))
    ensures r.Success? ==> CameraProxy.Valid(r.value.1) && r.value.0.state == v.state
    ensures r.Success? ==>
      r.value.0.frameCount == v.frameCount || (r.value.0.frameCount == v.frameCount + 1 && v.state == Playing)
  {
    if !CameraProxy.HasFrame(p, frameCount) || v.state != Playing then Success((v, p))
    else
      match CameraProxy.GetFrame(p, frameCount)
      case Failure(e) => Failure(e)
      case Success((frame, p1)) =>
        if frame.None? || !hasData(frame.value) then Success((v, p1))
        else Success((v.(frameCount := v.frameCount + 1), p1))
  }

  /** The frame counter grows only through a playing view fetching a frame
      that carries data. */
  lemma UpdateTextureCounts(v: View, p: CameraProxy.Proxy, frameCount: int, hasData: ObjectPools.Obj -> bool)
    requires CameraProxy.Valid(p)
    requires UpdateTexture(v, p, frameCount, hasData).Success?
    requires UpdateTexture(v, p, frameCount, hasData).value.0.frameCount == v.frameCount + 1
    ensures v.state == Playing
    ensures exists f :: CameraProxy.GetFrame(p, frameCount) == Success((Some(f), CameraProxy.GetFrame(p, frameCount).value.1)) && hasData(f)
  {
    var g := CameraProxy.GetFrame(p, frameCount);
    assert g.Success?;
    var f := g.value.0.value;
    assert g == Success((Some(f), g.value.1));
  }

  /** A public call on the view. */
  datatype Call = CallPlay | CallPause | CallResume | CallStop

  /** One call; only `Stop` can throw, and then nothing has changed. */
  function Apply(v: View, p: CameraProxy.Proxy, c: Call, poolIds: nat, debugBuild: bool)
    : (r: Result<(View, CameraProxy.Proxy), string>)
    requires CameraProxy.Valid(p)
    ensures r.Failure? ==> c == CallStop && debugBuild && p.active.None?
    ensures r.Success? ==> CameraProxy.Valid(r.value.1)
    ensures r.Success? && Subscribed(v) ==> Subscribed(r.value.0)
  {
    match c
    case CallPlay => Success(Play(v, p, poolIds))
    case CallPause => Success(Pause(v, p))
    case CallResume => Success(Resume(v, p))
    case CallStop => Stop(v, p, debugBuild)
  }

  /** The calls applied one after another, up to the first that throws: the
      view and proxy as they were then, and the exception, if any. */
  function Run(v: View, p: CameraProxy.Proxy, calls: seq<Call>, poolIds: nat, debugBuild: bool)
    : (r: (View, CameraProxy.Proxy, Option<string>))
    requires CameraProxy.Valid(p)
    ensures CameraProxy.Valid(r.1)
    ensures !debugBuild ==> r.2.None?
    decreases |calls|
  {
    if |calls| == 0 then (v, p, None)
    else
      match Apply(v, p, calls[0], poolIds, debugBuild)
      case Failure(e) => (v, p, Some(e))
      case Success((v1, p1)) => Run(v1, p1, calls[1..], poolIds, debugBuild)
  }

  /** The view never unbalances its subscription: whatever sequence of calls
      is made, and whether or not one of them throws, `UpdateTexture` is
      subscribed once while Playing and not at all otherwise. */
  lemma {:induction false} RunKeepsSubscription(v: View, p: CameraProxy.Proxy, calls: seq<Call>, poolIds: nat,
                                                debugBuild: bool)
    requires CameraProxy.Valid(p) && Subscribed(v)
    ensures Subscribed(Run(v, p, calls, poolIds, debugBuild).0)
    decreases |calls|
  {
    if |calls| > 0 {
      var a := Apply(v, p, calls[0], poolIds, debugBuild);
      if a.Success? {
        var (v1, p1) := a.value;
        RunKeepsSubscription(v1, p1, calls[1..], poolIds, debugBuild);
      }
    }
  }

  /** `Play` is idempotent. */
  lemma PlayTwice(v: View, p: CameraProxy.Proxy, i: nat, j: nat)
    requires CameraProxy.Valid(p)
    ensures Play(Play(v, p, i).0, Play(v, p, i).1, j) == Play(v, p, i)
  {
  }
}
