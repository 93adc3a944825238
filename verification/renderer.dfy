/** `NRRenderer`'s state machine. The main thread issues plugin events to the
    render thread; the render-thread callback is what sets Running and
    Paused. Issued events are kept in order until the render thread runs
    them. */
module Renderer {

  /** `RendererState`. */
  datatype RendererState = UnInitialized | Initialized | Running | Paused | Destroyed

  /** The plugin event ids. */
  const StartEvent: int := 0x0002
  const ResumeEvent: int := 0x0003
  const PauseEvent: int := 0x0004
  const StopEvent: int := 0x0005

  /** The current state and the events issued but not yet run. */
  datatype Render = Render(state: RendererState, issued: seq<int>)

  function NewRender(): (r: Render)
    ensures r.state == UnInitialized && r.issued == []
  {
    Render(UnInitialized, [])
  }

  /** `Start`: only from UnInitialized; becomes Initialized and issues the
      start event. */
  function Start(r: Render): (r': Render)
    ensures r.state != UnInitialized ==> r' == r
    ensures r.state == UnInitialized ==> r'.state == Initialized && r'.issued == r.issued + [StartEvent]
  {
    if r.state != UnInitialized then r else Render(Initialized, r.issued + [StartEvent])
  }

  /** `Pause`: issues the pause event only while Running; the state itself
      changes when the render thread runs it. */
  function Pause(r: Render): (r': Render)
    ensures r'.state == r.state
    ensures r'.issued == if r.state == Running then r.issued + [PauseEvent] else r.issued
  {
    if r.state != Running then r else r.(issued := r.issued + [PauseEvent])
  }

  /** `DelayResume` (run 0.3 s after `Resume`): issues the resume event only
      while Paused. */
  function DelayResume(r: Render): (r': Render)
    ensures r'.state == r.state
    ensures r'.issued == if r.state == Paused then r.issued + [ResumeEvent] else r.issued
  {
    if r.state != Paused then r else r.(issued := r.issued + [ResumeEvent])
  }

  /** `RunOnRenderThread(eventID)`: start and resume set Running, pause sets
      Paused, any other id changes nothing. */
  function RunOnRenderThread(state: RendererState, eventId: int): (s: RendererState)
    ensures eventId == StartEvent || eventId == ResumeEvent ==> s == Running
    ensures eventId == PauseEvent ==> s == Paused
    ensures eventId !in {StartEvent, ResumeEvent, PauseEvent} ==> s == state
  {
    if eventId == StartEvent || eventId == ResumeEvent then Running
    else if eventId == PauseEvent then Paused
    else state
  }

  /** The render thread runs the oldest issued event. */
  function RunNext(r: Render): (r': Render)
    ensures r.issued == [] ==> r' == r
    ensures r.issued != [] ==> r'.issued == r.issued[1..] && r'.state == RunOnRenderThread(r.state, r.issued[0])
  {
    if r.issued == [] then r else Render(RunOnRenderThread(r.state, r.issued[0]), r.issued[1..])
  }

  /** `Destroy`: a no-op when Destroyed or UnInitialized, else Destroyed. */
  function Destroy(r: Render): (r': Render)
    ensures r.state == Destroyed || r.state == UnInitialized ==> r' == r
    ensures r.state != Destroyed && r.state != UnInitialized ==> r'.state == Destroyed && r'.issued == r.issued
  {
    if r.state == Destroyed || r.state == UnInitialized then r else r.(state := Destroyed)
  }

  /** Starting a new renderer and letting the render thread catch up leaves
      it Running; pausing and then resuming, each followed by the render
      thread, returns it to Running through Paused. */
  lemma StartPauseResume(r: Render)
    requires r.state == UnInitialized && r.issued == []
    ensures var running := RunNext(Start(r));
      var paused := RunNext(Pause(running));
      var resumed := RunNext(DelayResume(paused));
      running.state == Running && paused.state == Paused && resumed.state == Running && resumed.issued == []
  {
  }

  /** Once destroyed (or before start), the main-thread calls issue nothing. */
  lemma DestroyedIssuesNothing(r: Render)
    requires r.state == Destroyed
    ensures Start(r) == r && Pause(r) == r && DelayResume(r) == r && Destroy(r) == r
  {
  }

  /** The render thread does not check the state: a start event issued
      before `Destroy` and run after it leaves the renderer Running. */
  lemma LateStartEventRevives(r: Render)
    requires r.state == UnInitialized && r.issued == []
    ensures RunNext(Destroy(Start(r))).state == Running
  {
  }

  /** A running renderer with nothing pending that is paused and then
      resumed, the render thread catching up after each call, is exactly as
      it was. */
  lemma PauseResumeRestores(r: Render)
    requires r.state == Running && r.issued == []
    ensures RunNext(Pause(r)).state == Paused
    ensures RunNext(DelayResume(RunNext(Pause(r)))) == r
  {
  }

  /** Events run in the order they were issued: with events already pending,
      the pause is run only after all of them. */
  lemma {:induction false} PauseRunsAfterPending(r: Render)
    requires r.state == Running
    ensures Pause(r).issued == r.issued + [PauseEvent]
    ensures Drain(Pause(r)).state == Paused && Drain(Pause(r)).issued == []
  {
    DrainEndsWithPause(r.issued, r.state);
  }

  /** The render thread running every pending event. */
  function Drain(r: Render): (r': Render)
    ensures r'.issued == []
    decreases |r.issued|
  {
    if r.issued == [] then r else Drain(RunNext(r))
  }

  /** Draining a queue that ends in a pause leaves the renderer Paused,
      whatever came before. */
  lemma {:induction false} DrainEndsWithPause(pending: seq<int>, s: RendererState)
    ensures Drain(Render(s, pending + [PauseEvent])).state == Paused
    decreases |pending|
  {
    if pending != [] {
      assert (pending + [PauseEvent])[1..] == pending[1..] + [PauseEvent];
      DrainEndsWithPause(pending[1..], RunOnRenderThread(s, pending[0]));
    }
  }
}
