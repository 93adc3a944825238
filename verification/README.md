# NRSDK core, modelled in Dafny

This project models the managed core of NRSDK, the Unity SDK for XREAL AR
glasses. It covers the pure and stateful logic that sits between the native
runtime and the application. The native runtime, the Unity engine and
Android are not modelled: each foreign answer (a native result code, a
frame, a clock reading, the media store's answer) is a parameter of the
operation that asks for it.

Each component has one module in one file. The modules, and the classes
they model, are:

- `AudioRing` (`audio_ring.dfy`): `AudioFilterStream`, the ring buffer that
  captured audio passes through, and `AudioRecordTool`'s conversion of
  float samples to 16-bit PCM.
- `ObjectPools` (`object_pool.dfy`): `ObjectPool`, the free list of reusable
  frame buffers.
- `CameraProxy` and `CameraView` (`camera_proxy.dfy`, `camera_view.dfy`):
  `NativeCameraProxy`, with its frame queue, pause and play life cycle and
  view registry, and `CameraModelView`, the per-consumer state machine.
- `ControllerInput`, `ControllerParsers`, `ParseUtility` and
  `EditorProvider` (`controller_state.dfy`, `controller_parsers.dfy`,
  `parse_utility.dfy`, `editor_provider.dfy`): `ControllerState` and its
  button masks, the XREAL Light and hand parsers, the touch-area
  classification and the editor's emulated controller.
- `NRInputModel`, `PhoneScreen` and `HandStates` (`nr_input.dfy`,
  `phone_screen.dfy`, `hand_state.dfy`): `NRInput`'s source and
  handedness selection, the phone controller's eleven-byte message, and a
  hand's tracking state.
- `HMDTracker`, `Session`, `SessionConfigs`, `NativeConfig`, `Device`
  (`hmd_tracker.dfy`, `session.dfy`, `session_config.dfy`,
  `native_config.dfy`, `device.dfy`): the head-pose tracker's mode
  switching, the session manager's life cycle, the session configuration,
  the native configuration updates and the glasses device subsystem.
- `KernalErrors` and `NativeTypes` (`errors.dfy`, `native_types.dfy`):
  `NativeErrorListener`'s mapping of result codes to exceptions, the
  exception hierarchy, and the native vector and matrix layouts.
- `Renderer`, `SwapChain`, `Overlay` (`renderer.dfy`, `swap_chain.dfy`,
  `overlay.dfy`): the renderer's state machine (start, pause and resume
  events the main thread issues and the render-thread callback that
  applies them), the swap-chain manager's layer registry and view-port
  indices, and an overlay's life cycle.
- `EncodeConfig`, `VideoCapture`, `Permissions` (`encode_config.dfy`,
  `video_capture.dfy`, `permissions.dfy`): the capture encoder
  configuration, `NRVideoCapture`'s recording states and the Android
  permission result.
- `WorldAnchors` and `Trackables` (`anchors.dfy`, `trackables.dfy`): the
  world-anchor store and anchors, the trackable manager and the emulator's
  trackable provider.
- `Grabber`, `Polygon`, `MeshLabels`, `TrackingTips`, `InfoLog`, `Gallery`
  (`grabber.dfy`, `polygon.dfy`, `mesh_labels.dfy`, `tracking_tips.dfy`,
  `info_log.dfy`, `gallery.dfy`): the demo components with real logic. These
  are the hand grabber, the plane polygon's triangle fan, the mesh
  classifier, the tracking tips, the controller information log, and the
  Java gallery writer.
- `Debugger`, `Notifications`, `VisualProfiler`, `NRTools`, `StringUtility`,
  `Gradle` (`debugger.dfy`, `notifications.dfy`, `visual_profiler.dfy`,
  `nr_tools.dfy`, `string_utility.dfy`, `gradle.dfy`): the logger's level
  filter, the notification listener's queue and error messages, the
  profiler's integer rendering and settings, the time helpers, string formatting, and the Gradle
  template patcher.

`Wrappers` (`Option`, `Result`), `CSharp` (C# integer semantics: 32- and
64-bit ranges and wrap-around, division truncating toward zero, decimal
rendering), `Bytes`, `Geometry` and `Strings` (ordinal .NET string
search, split, join and replace) are shared helpers.

Floats are modelled as exact reals. C# integer widths are explicit where
the code relies on them. Exceptions are `Result` failures. Where the code
mutates state before it throws, the partial state is kept.

## Where the model follows the code

The Java gallery writer is said to never let an exception reach its caller
and to return a possibly missing entry. As written, the bitmap insert and
the path insert open an output stream on the entry without testing it.
When the media store gives no entry, the resulting null-pointer exception
is not an `IOException`, so it escapes. `Gallery.InsertUnchecked` and
`Gallery.InsertImageFromPath` model this as a failure. A missing image file
is caught, and the entry is returned without content.

## Model

| member | source | states |
|---|---|---|
| AudioRing.NewStream | Assets/NRSDK/Scripts/Capture/Encoder/AudioFilterStream.cs:23-27 | a new stream has no buffer, read index = write index = 0 and nothing pending |
| AudioRing.Dispose | Assets/NRSDK/Scripts/Capture/Encoder/AudioFilterStream.cs:29-33 | disposing rewinds both indices to 0, keeps the buffer and leaves nothing pending |
| AudioRing.InitCapacity | Assets/NRSDK/Scripts/Capture/Encoder/AudioFilterStream.cs:20-38 | the allocated length is the requested one when it is at most 40960, else 40960; never above 40960 |
| AudioRing.InitBuffer | Assets/NRSDK/Scripts/Capture/Encoder/AudioFilterStream.cs:35-38 | allocation gives a buffer of the capped capacity and leaves both indices (and so the empty pending range) alone |
| AudioRing.Write | Assets/NRSDK/Scripts/Capture/Encoder/AudioFilterStream.cs:60-89 | without a buffer the lock throws; data that fits lands at the write index, which advances by its length; otherwise the head fills the tail, the rest lands at the front and the write index ends at len − left, or the second copy throws with the write index at 0; the read index and the capacity never change |
| AudioRing.WriteAppendsToPending | Assets/NRSDK/Scripts/Capture/Encoder/AudioFilterStream.cs:60-89 | with free space for the data, a write (wrapping or not) appends exactly the data to the bytes pending in ring order |
| AudioRing.AppendAcrossEnd | Assets/NRSDK/Scripts/Capture/Encoder/AudioFilterStream.cs:71-79 | a wrapping write that stays short of the reader yields, in ring order, the old unread bytes followed by the data |
| AudioRing.Flush | Assets/NRSDK/Scripts/Capture/Encoder/AudioFilterStream.cs:91-141 | returns false with the output untouched iff there is no buffer or read = write; otherwise hands out the pending bytes in ring order (w − r of them when r < w, else (cap − r) + w) and ends with read = write |
| AudioRing.OnAudioDataRead | Assets/NRSDK/Scripts/Capture/Encoder/AudioFilterStream.cs:40-58 | the first callback allocates the capped `uint` product size·10; a zero pointer or a size that is not positive as an `int` changes neither index |
| AudioRing.OnAudioDataReadAppends | Assets/NRSDK/Scripts/Capture/Encoder/AudioFilterStream.cs:40-68 | with room to spare a positive-size callback appends exactly the native bytes to what is pending |
| AudioRing.NewRecorder | Assets/NRSDK/Scripts/Capture/Encoder/AudioRecordTool.cs:25-38 | after `Awake` the indices are 0, there is no buffer and the tool is not recording |
| AudioRing.StartRecord | Assets/NRSDK/Scripts/Capture/Encoder/AudioRecordTool.cs:45-48 | sets the recording flag and leaves the ring untouched |
| AudioRing.StopRecord | Assets/NRSDK/Scripts/Capture/Encoder/AudioRecordTool.cs:50-53 | clears the recording flag and leaves the ring untouched |
| AudioRing.SampleToInt16 | Assets/NRSDK/Scripts/Capture/Encoder/AudioRecordTool.cs:82-87 | the `(Int16)` cast of a scaled sample always lies in the signed 16-bit range |
| AudioRing.Int16LeRoundTrip | Assets/NRSDK/Scripts/Capture/Encoder/AudioRecordTool.cs:88-89 | the two little-endian bytes written for a sample decode back to that sample |
| AudioRing.EncodeSamplesDecode | Assets/NRSDK/Scripts/Capture/Encoder/AudioRecordTool.cs:85-90 | byte pair i of the encoded buffer decodes to the i-th sampled value |
| AudioRing.ConvertToSingleChannel | Assets/NRSDK/Scripts/Capture/Encoder/AudioRecordTool.cs:73-93 | as written: zero channels divide by zero, a negative quotient is a negative array length, an index 2·(count−1) past the end throws, and otherwise the output has 2·(n/channels) bytes |
| AudioRing.ConvertToSingleChannelSamples | Assets/NRSDK/Scripts/Capture/Encoder/AudioRecordTool.cs:85-90 | when the conversion succeeds, pair i holds the sample at index 2·i whatever the channel count |
| AudioRing.MonoConversionThrows | Assets/NRSDK/Scripts/Capture/Encoder/AudioRecordTool.cs:75-87 | a mono callback with at least two samples makes the conversion read past the end of the array |
| AudioRing.ConvertFirstChannel | Assets/NRSDK/Scripts/Capture/Encoder/AudioRecordTool.cs:68-73 | corrected conversion: zero channels still divide by zero; every positive channel count succeeds with 2·(n/channels) bytes |
| AudioRing.ConvertFirstChannelSamples | Assets/NRSDK/Scripts/Capture/Encoder/AudioRecordTool.cs:64-73 | with the corrected conversion, pair i holds the first channel of frame i, `data[channels·i]` |
| AudioRing.StereoConversionsAgree | Assets/NRSDK/Scripts/Capture/Encoder/AudioRecordTool.cs:73-93 | for stereo input the as-written and corrected conversions give the same bytes |
| AudioRing.OnAudioFilterRead | Assets/NRSDK/Scripts/Capture/Encoder/AudioRecordTool.cs:55-66 | ignored unless recording; the first call allocates the capped, wrapped length·10 (a negative length throws); a failing conversion raises its fault and moves neither index |
| AudioRing.OnAudioFilterReadAppends | Assets/NRSDK/Scripts/Capture/Encoder/AudioRecordTool.cs:55-149 | while recording with room to spare a stereo callback appends its converted samples to what is pending |
| AudioRing.FlushRecorder | Assets/NRSDK/Scripts/Capture/Encoder/AudioRecordTool.cs:151-199 | the same flush discipline: succeeds iff there is a buffer and read ≠ write, hands out the pending bytes and ends with read = write; the recording flag is untouched |
| ObjectPools.NewObjectPool | Assets/NRSDK/Scripts/Utility/ObjectPool.cs:11-13 | a new pool has no queues and `InitCount` 100 |
| ObjectPools.GetQueue | Assets/NRSDK/Scripts/Utility/ObjectPool.cs:53-63 | looking a type's queue up adds an empty one when missing and changes no other type's queue |
| ObjectPools.Expansion | Assets/NRSDK/Scripts/Utility/ObjectPool.cs:17-25 | expansion appends `InitCount` newly constructed objects (none when it is not positive) to that type's queue only |
| ObjectPools.Get | Assets/NRSDK/Scripts/Utility/ObjectPool.cs:30-39 | a non-empty queue yields its head; an empty one is first refilled with `InitCount` fresh objects and yields the first of them; with `InitCount` ≤ 0 the dequeue throws; other types are untouched |
| ObjectPools.Put | Assets/NRSDK/Scripts/Utility/ObjectPool.cs:44-48 | the object joins the back of its type's queue; other types are untouched |
| ObjectPools.Clear | Assets/NRSDK/Scripts/Utility/ObjectPool.cs:65-68 | every type's queue is empty afterwards |
| ObjectPools.PutThenGet | Assets/NRSDK/Scripts/Utility/ObjectPool.cs:30-48 | `Put` then `Get` on an empty queue returns the same object and leaves the queue empty (FIFO) |
| ObjectPools.PutPutGetGet | Assets/NRSDK/Scripts/Utility/ObjectPool.cs:30-48 | two puts followed by two gets return the objects in the order they were put |
| ObjectPools.GetBytes | Assets/NRSDK/Scripts/Utility/ObjectPool.cs:80-104 | null iff the length is not positive (pool unchanged); otherwise an array of exactly that length: the head of its queue, or a new one when the queue is missing or empty; arrays stay filed by length |
| ObjectPools.PutBytes | Assets/NRSDK/Scripts/Utility/ObjectPool.cs:108-124 | a null or empty array changes nothing; any other array joins the back of the queue for its length and no other queue changes |
| ObjectPools.PutBytesThenGet | Assets/NRSDK/Scripts/Utility/ObjectPool.cs:80-124 | an array put back where no spare array of its length waits is the one the next `Get` of that length returns |
| ObjectPools.ClearBytes | Assets/NRSDK/Scripts/Utility/ObjectPool.cs:126-129 | clearing leaves no queue at all |
| CameraProxy.Enqueue | Assets/NRSDK/Scripts/Camera/Proxy/NativeCameraProxy.cs:102-113 | the frame is appended; once the count exceeds `Limit` the oldest frame is dropped into the pool, so a queue within its limit stays within it and always ends with the new frame |
| CameraProxy.Dequeue | Assets/NRSDK/Scripts/Camera/Proxy/NativeCameraProxy.cs:118-126 | an empty queue throws; otherwise returns the head, removes it, and also puts it back into the pool, leaving the other pool types and the pool settings alone |
| CameraProxy.ClearQueue | Assets/NRSDK/Scripts/Camera/Proxy/NativeCameraProxy.cs:128-132 | clearing empties both the queue and the shared pool |
| CameraProxy.EnqueueAllBounded | Assets/NRSDK/Scripts/Camera/Proxy/NativeCameraProxy.cs:102-113 | any run of enqueues keeps count ≤ `Limit` and leaves the most recent frames, in order |
| CameraProxy.NewProxy | Assets/NRSDK/Scripts/Camera/Proxy/NativeCameraProxy.cs:151-155 | the constructor leaves an initialized, stopped, unpaused proxy with an empty view list and an empty queue of limit 5 |
| CameraProxy.Initialize | Assets/NRSDK/Scripts/Camera/Proxy/NativeCameraProxy.cs:158-179 | a no-op once initialized; otherwise creates the pool (`InitCount` 10) and the queue (limit 5) if missing and always a fresh empty view list; the play flags are untouched |
| CameraProxy.Regist | Assets/NRSDK/Scripts/Camera/Proxy/NativeCameraProxy.cs:190-202 | the view is registered afterwards, appended only when absent, so the list never holds a duplicate |
| CameraProxy.Remove | Assets/NRSDK/Scripts/Camera/Proxy/NativeCameraProxy.cs:221-228 | the view is absent afterwards and every other view keeps its membership; the call throws a null reference exactly in a DEBUG build on a proxy whose view list was released, where the count log dereferences the missing list |
| CameraProxy.SetImageFormat | Assets/NRSDK/Scripts/Camera/Proxy/NativeCameraProxy.cs:232-245 | initializes if needed; once a format was accepted later calls change nothing |
| CameraProxy.Play | Assets/NRSDK/Scripts/Camera/Proxy/NativeCameraProxy.cs:248-268 | ends initialized and playing; a playing proxy is unchanged; the paused flag is untouched |
| CameraProxy.PlayIdempotent | Assets/NRSDK/Scripts/Camera/Proxy/NativeCameraProxy.cs:248-268 | playing twice is playing once |
| CameraProxy.HasFrameAgreesWithGetFrame | Assets/NRSDK/Scripts/Camera/Proxy/NativeCameraProxy.cs:272-294 | when `HasFrame` is true in a new engine frame `GetFrame` hands out the oldest queued frame; when it is false for a playing proxy `GetFrame` returns the previous frame and changes nothing |
| CameraProxy.Pause | Assets/NRSDK/Scripts/Camera/Proxy/NativeCameraProxy.cs:329-336 | only a playing, unpaused proxy becomes paused; any other proxy is unchanged |
| CameraProxy.Resume | Assets/NRSDK/Scripts/Camera/Proxy/NativeCameraProxy.cs:338-345 | only a playing, paused proxy is unpaused; any other proxy is unchanged |
| CameraProxy.Release | Assets/NRSDK/Scripts/Camera/Proxy/NativeCameraProxy.cs:370-387 | as written: empties the pool, drops the queue, the current frame and the view list, and clears initialized, format and playing, but keeps the paused flag |
| CameraProxy.Stop | Assets/NRSDK/Scripts/Camera/Proxy/NativeCameraProxy.cs:348-367 | stops (and releases) exactly when playing with no view registered; otherwise nothing changes |
| CameraProxy.GetFrame | Assets/NRSDK/Scripts/Camera/Proxy/NativeCameraProxy.cs:284-294 | at most one dequeue per engine frame: a new engine frame with frames queued takes the head and records the frame number; otherwise the previous frame is returned; after release the count read throws |
| CameraProxy.QueueFrame | Assets/NRSDK/Scripts/Camera/Proxy/NativeCameraProxy.cs:306-327 | ignored unless playing; a copied frame is queued (count grows by one up to the limit 5); a frame that was not copied goes back to the pool and the queue is unchanged; a pool that can neither hand out nor create a frame throws the empty-queue exception, keeping the pool as the lookup left it |
| CameraProxy.PauseLostAfterRestart | Assets/NRSDK/Scripts/Camera/Proxy/NativeCameraProxy.cs:329-387 | play, pause, stop, play leaves a playing proxy still flagged paused, so the next `Pause` does nothing |
| CameraProxy.ReleaseFixed | Assets/NRSDK/Scripts/Camera/Proxy/NativeCameraProxy.cs:370-387 | corrected release: everything `Release` clears, plus the paused flag |
| CameraProxy.StopFixed | Assets/NRSDK/Scripts/Camera/Proxy/NativeCameraProxy.cs:348-367 | with the corrected release, a proxy that stops is never left paused |
| CameraProxy.PauseWorksAfterFixedRestart | Assets/NRSDK/Scripts/Camera/Proxy/NativeCameraProxy.cs:329-367 | with the corrected release, play, pause, stop, play gives an unpaused proxy that the next `Pause` pauses |
| CameraView.NewView | Assets/NRSDK/Scripts/Camera/Model/CameraModelView.cs:58-95 | the default constructor: a view with the given identity, Stopped, `FrameCount` 0 and no update subscription |
| CameraView.NewViewWithFormat | Assets/NRSDK/Scripts/Camera/Model/CameraModelView.cs:97-115 | the format constructor: the same fresh view, and the factory's proxy left initialized with the format set when the provider accepted it (or it was set before) and with this view registered alongside the views it already had |
| CameraView.Play | Assets/NRSDK/Scripts/Camera/Model/CameraModelView.cs:118-128 | a no-op when Playing; otherwise the proxy plays with the view registered and the view becomes Playing, subscribed once, frame count unchanged |
| CameraView.Pause | Assets/NRSDK/Scripts/Camera/Model/CameraModelView.cs:131-140 | only a Playing view pauses (pausing the proxy and dropping its subscription); from Paused or Stopped nothing changes |
| CameraView.Resume | Assets/NRSDK/Scripts/Camera/Model/CameraModelView.cs:143-151 | only a Paused view resumes (resuming the proxy); from any other state nothing changes |
| CameraView.Stop | Assets/NRSDK/Scripts/Camera/Model/CameraModelView.cs:172-186 | from a non-Stopped state: unregistered from the proxy, Stopped, `FrameCount` = 0; from Stopped nothing changes; it throws, changing nothing, exactly when a non-Stopped view stops in a DEBUG build on a proxy whose view list was released |
| CameraView.UpdateTexture | Assets/NRSDK/Scripts/Camera/Model/CameraModelView.cs:154-169 | nothing happens unless the proxy has a frame and the view is playing; the state never changes and the frame count grows by at most one, and only while Playing |
| CameraView.UpdateTextureCounts | Assets/NRSDK/Scripts/Camera/Model/CameraModelView.cs:156-167 | the frame count grows only when a playing view fetched a frame whose data is not null |
| CameraView.Apply | Assets/NRSDK/Scripts/Camera/Model/CameraModelView.cs:118-186 | every public call that returns keeps the proxy valid and the update subscription balanced; only `Stop`, in a DEBUG build on a released view list, throws |
| CameraView.RunKeepsSubscription | Assets/NRSDK/Scripts/Camera/Model/CameraModelView.cs:118-186 | for any sequence of calls, up to the first exception if one is thrown, `UpdateTexture` is subscribed exactly once while Playing and not at all otherwise |
| CameraView.PlayTwice | Assets/NRSDK/Scripts/Camera/Model/CameraModelView.cs:118-128 | `Play` is idempotent on the view and the proxy |
| ControllerInput.Is6dofBits | Assets/NRSDK/Scripts/Input/Controller/ControllerState.cs:173-187 | a controller is 6DoF iff both the position bit and the rotation bit of its feature mask are set |
| ControllerInput.Reset | Assets/NRSDK/Scripts/Input/Controller/ControllerState.cs:214-232 | type UNKNOWN, NOT_INITIALIZED, identity rotation, zero vectors and touch, all three button masks, features and battery 0; delta touch, last touch, press times and listeners are kept |
| ControllerInput.NewState | Assets/NRSDK/Scripts/Input/Controller/ControllerState.cs:161-169 | a new state has empty listener and press-time tables and is reset |
| ControllerInput.AddListener | Assets/NRSDK/Scripts/Input/Controller/ControllerState.cs:238-253 | the action is appended to the entry's invocation list, the entry created when missing; no other entry changes |
| ControllerInput.RemoveLast | Assets/NRSDK/Scripts/Input/Controller/ControllerState.cs:268 | delegate `-=` removes the LAST occurrence of the action (position given by the independent `LastIndex`) and keeps every other entry in order; the list is unchanged when it holds none |
| ControllerInput.RemoveLastMultiset | Assets/NRSDK/Scripts/Input/Controller/ControllerState.cs:268 | `-=` takes exactly one copy of the action out of the invocation list when it holds one, and nothing else |
| ControllerInput.RemoveListener | Assets/NRSDK/Scripts/Input/Controller/ControllerState.cs:259-274 | the action is removed from the entry, and the entry is deleted once its list becomes empty; no other entry changes and no empty list is ever kept |
| ControllerInput.AddThenRemove | Assets/NRSDK/Scripts/Input/Controller/ControllerState.cs:238-274 | adding a listener and removing it again restores the table |
| ControllerInput.RemoveOnlyListenerDeletesKey | Assets/NRSDK/Scripts/Input/Controller/ControllerState.cs:268-272 | removing the last listener for a button deletes the key |
| ControllerInput.UpdateDeltaTouch | Assets/NRSDK/Scripts/Input/Controller/ControllerState.cs:277-288 | delta touch is zero if the previous or current touch is zero, else current − previous; the previous touch becomes the current one and nothing else changes |
| ControllerInput.ButtonEvents | Assets/NRSDK/Scripts/Input/Controller/ControllerState.cs:296-321 | Down iff the down bit is set (recording the time); Pressing iff held; Up iff released and not held; Click iff additionally the recorded press is less than `ClickInterval` ago |
| ControllerInput.Tag | Assets/NRSDK/Scripts/Input/Controller/ControllerState.cs:307-319 | each event raised is paired with the button it was raised for |
| ControllerInput.CheckButtonEvents | Assets/NRSDK/Scripts/Input/Controller/ControllerState.cs:291-323 | updates the delta touch, then raises the per-button events of TRIGGER, APP, HOME, GRIP and TOUCHPAD_BUTTON in that order and updates the press-time table |
| ControllerInput.VisitButtons | Assets/NRSDK/Scripts/Input/Controller/ControllerState.cs:294-322 | the loop over the buttons raises exactly the events of the per-button reference definition, in button order |
| ControllerInput.HeldButtonIsNotReleased | Assets/NRSDK/Scripts/Input/Controller/ControllerState.cs:309-321 | a held button raises Pressing and never Up or Click in the same frame |
| ControllerInput.NoClickWithoutPress | Assets/NRSDK/Scripts/Input/Controller/ControllerState.cs:316-320 | a release with no recorded press is never a click |
| ControllerParsers.Mask | Assets/NRSDK/Scripts/Input/Controller/ControllerStateParsers/XrealLightControllerStateParser.cs:150-161 | the mask sets no bit but TRIGGER, APP and HOME, and each of those bits reads back as its flag |
| ControllerParsers.Edges | Assets/NRSDK/Scripts/Input/Controller/ControllerStateParsers/XrealLightControllerStateParser.cs:134-138 | down = ¬prev ∧ cur and up = prev ∧ ¬cur per button, so no button is both down and up |
| ControllerParsers.EdgesReplay | Assets/NRSDK/Scripts/Input/Controller/ControllerStateParsers/XrealLightControllerStateParser.cs:130-140 | the edges replay the current sample from the previous one: held now iff it just went down, or was held and did not go up |
| ControllerParsers.Report | Assets/NRSDK/Scripts/Input/Controller/ControllerStateParsers/XrealLightControllerStateParser.cs:150-161 | the state's three masks report exactly the three flag arrays and nothing else of the state changes |
| ControllerParsers.ClassifyTouch | Assets/NRSDK/Scripts/Input/Controller/ControllerStateParsers/XrealLightControllerStateParser.cs:165-176 | None when not touching; otherwise Down iff y < −0.9·c, Up iff y > 0.8·c, Center between; Left and Right are never produced |
| ControllerParsers.FirstHeld | Assets/NRSDK/Scripts/Input/Controller/ControllerStateParsers/XrealLightControllerStateParser.cs:119-127 | the index of the first held button, −1 exactly when none is held |
| ControllerParsers.Latch | Assets/NRSDK/Scripts/Input/Controller/ControllerStateParsers/XrealLightControllerStateParser.cs:99-128 | keeps "at most one button held, and it is the latched one"; a latched button follows the trigger and unlatches on release; a new button latches only on a rising trigger edge, and it is the one under the finger |
| ControllerParsers.NewXrealLightParser | Assets/NRSDK/Scripts/Input/Controller/ControllerStateParsers/XrealLightControllerStateParser.cs:38-56 | a new parser holds no button and has nothing latched |
| ControllerParsers.ParseXrealLight | Assets/NRSDK/Scripts/Input/Controller/ControllerStateParsers/XrealLightControllerStateParser.cs:69-162 | touching iff the absolute x or y exceeds 1e-6, the touch is (0,0) when not touching; the area is classified from it; a new latch needs a rising physical edge; up/down are the edges against the previous call; the masks report them and nothing else |
| ControllerParsers.XrealLightReportsOneButton | Assets/NRSDK/Scripts/Input/Controller/ControllerStateParsers/XrealLightControllerStateParser.cs:99-153 | after any call at most one of trigger, app and home is reported held |
| ControllerParsers.LatchFollowsTrigger | Assets/NRSDK/Scripts/Input/Controller/ControllerStateParsers/XrealLightControllerStateParser.cs:99-104 | a latched button stays held, with no new down edge, while the trigger is held, wherever the finger moves; releasing the trigger releases it and reports its up edge |
| ControllerParsers.NewHandParser | Assets/NRSDK/Scripts/Input/Controller/ControllerStateParsers/NRHandControllerStateParser.cs:15-21 | a new hand parser holds no button |
| ControllerParsers.ParseHand | Assets/NRSDK/Scripts/Input/Controller/ControllerStateParsers/NRHandControllerStateParser.cs:25-65 | trigger = isTouching, app and home always false; down/up are the rising/falling edges against the previous call and never both; only the three masks are written |
| ControllerParsers.HandTriggerEdges | Assets/NRSDK/Scripts/Input/Controller/ControllerStateParsers/NRHandControllerStateParser.cs:31-49 | over two calls the trigger goes down exactly when a pinch starts and up exactly when it ends |
| EditorProvider.NewInputs | Assets/NRSDK/Scripts/Input/Controller/ControllerProviders/EditorControllerProvider.cs:145-148 | the static inputs start with all three button values 0 |
| EditorProvider.SetControllerButtonState | Assets/NRSDK/Scripts/Input/Controller/ControllerProviders/EditorControllerProvider.cs:163-185 | setting trigger, app or home stores the value in its slot and clears the other two; any other button is ignored; every other input is untouched |
| EditorProvider.SetControllerRotation | Assets/NRSDK/Scripts/Input/Controller/ControllerProviders/EditorControllerProvider.cs:187-191 | the raw rotation is remembered and reported multiplied by the correction of the last recenter; nothing else changes |
| EditorProvider.CheckRecenter | Assets/NRSDK/Scripts/Input/Controller/ControllerProviders/EditorControllerProvider.cs:125-142 | a recenter is requested once HOME has been held for more than 2 s, restarting the count; releasing HOME resets it |
| EditorProvider.EditorButtonsBits | Assets/NRSDK/Scripts/Input/Controller/ControllerProviders/EditorControllerProvider.cs:98-113 | held iff the value is 1; down bit iff previously unpressed and now 1; up bit iff previously pressed and now 0; never both down and up |
| EditorProvider.EditorEdgesAgreeWithParsers | Assets/NRSDK/Scripts/Input/Controller/ControllerProviders/EditorControllerProvider.cs:98-113 | with values 0 and 1 only, the editor's masks are exactly the parsers' edge masks between the previous and the new sample |
| EditorProvider.UpdateControllerState | Assets/NRSDK/Scripts/Input/Controller/ControllerProviders/EditorControllerProvider.cs:75-123 | each update reports type EDITOR, CONNECTED, battery 100, not charging, rotation-only, the touch and rotation inputs, the computed masks, and a recenter exactly when one was pending or HOME crossed the 2 s hold; the pending flag is consumed; a recenter sets the rotation correction to the inverse of the raw rotation and leaves every other input as it was, and without one the inputs are unchanged |
| EditorProvider.ApplyRecenter | Assets/NRSDK/Scripts/Input/Controller/ControllerProviders/EditorControllerProvider.cs:116-122 | a recenter fires exactly when one was pending or HOME crossed the hold time: it marks the state recentered, fixes the correction to the inverse of the raw rotation and clears the request |
| EditorProvider.Update | Assets/NRSDK/Scripts/Input/Controller/ControllerProviders/EditorControllerProvider.cs:53-59 | nothing changes while not running, neither the provider, the state nor the inputs; a running update consumes a pending recenter |
| EditorProvider.Recenter | Assets/NRSDK/Scripts/Input/Controller/ControllerProviders/EditorControllerProvider.cs:61-65 | requests a recenter for the next update |
| EditorProvider.PressTriggerReportsDown | Assets/NRSDK/Scripts/Input/Controller/ControllerProviders/EditorControllerProvider.cs:98-171 | pressing the trigger through the setter and updating from a state with nothing held reports the trigger held and down, and nothing up |
| EditorProvider.RecenterZeroesRotation | Assets/NRSDK/Scripts/Input/Controller/ControllerProviders/EditorControllerProvider.cs:116-191 | after an update that consumes a pending recenter, setting the same unit rotation again reports the identity |
| EditorProvider.NoRecenterReportsRaw | Assets/NRSDK/Scripts/Input/Controller/ControllerProviders/EditorControllerProvider.cs:148-191 | before any recenter the correction is the identity, so the rotation set is the rotation reported |
| Geometry.MulIdentity | Assets/NRSDK/Scripts/Input/Controller/ControllerProviders/EditorControllerProvider.cs:148-150 | the identity rotation the statics start from is neutral for the quaternion product on either side |
| Geometry.ConjugateIsInverse | Assets/NRSDK/Scripts/Input/Controller/ControllerProviders/EditorControllerProvider.cs:120 | the conjugate used for `Quaternion.Inverse` undoes a unit rotation from either side |
| ParseUtility.NewRegistry | Assets/NRSDK/Scripts/Input/Controller/ControllerStateParseUtility.cs:22-31 | phone and editor map to the phone parser, Xreal Light to its parser, hand to the hand parser, unknown to nothing; no parser cached |
| ParseUtility.DefaultType | Assets/NRSDK/Scripts/Input/Controller/ControllerStateParseUtility.cs:50-55 | the stored class, null when the type has no entry |
| ParseUtility.Create | Assets/NRSDK/Scripts/Input/Controller/ControllerStateParseUtility.cs:36-45 | a new instance exactly when the class implements the parser interface, else null |
| ParseUtility.GetControllerStateParser | Assets/NRSDK/Scripts/Input/Controller/ControllerStateParseUtility.cs:61-69 | an unmapped type yields null and clears the slot; a cached parser of the registered class is reused; otherwise a new parser is created; the slot ends holding the result; an index outside the cache throws |
| ParseUtility.SetDefaultControllerStateParserType | Assets/NRSDK/Scripts/Input/Controller/ControllerStateParseUtility.cs:74-85 | a null class removes an existing mapping; a non-null class inserts or overwrites it; other types are untouched |
| ParseUtility.GetTwiceIsCached | Assets/NRSDK/Scripts/Input/Controller/ControllerStateParseUtility.cs:66-68 | asking twice for the same type and index returns the same parser object from the cache |
| ParseUtility.UnsetTypeYieldsNoParser | Assets/NRSDK/Scripts/Input/Controller/ControllerStateParseUtility.cs:61-80 | after setting a null class for a type, its parser is null and the slot is cleared |
| ParseUtility.SetTypeThenGet | Assets/NRSDK/Scripts/Input/Controller/ControllerStateParseUtility.cs:61-84 | after registering a parser class for a type, the parser returned for it is an instance of that class |
| NRInputModel.HandOrdinal | Assets/NRSDK/Scripts/Input/Controller/NRInput.cs:16-22 | the two hands' ordinals are 0 and 1 |
| NRInputModel.OtherHand | Assets/NRSDK/Scripts/Input/Controller/NRInput.cs:16-22 | the other hand differs from the hand |
| NRInputModel.ConvertHandToIndex | Assets/NRSDK/Scripts/Input/Controller/NRInput.cs:462-472 | with < 2 controllers the domain hand maps to 0 and the other hand to 1; otherwise the index is the hand's ordinal |
| NRInputModel.HandsReadDistinctSlots | Assets/NRSDK/Scripts/Input/Controller/NRInput.cs:462-472 | whatever the count and the domain hand, the two hands read different slots |
| NRInputModel.CheckControllerAvailable | Assets/NRSDK/Scripts/Input/Controller/NRInput.cs:636-650 | with the hand provider, the hand's pointer-pose validity; otherwise 2 controllers make both hands available, 1 only the domain hand, 0 none |
| NRInputModel.OneControllerServesDomainHand | Assets/NRSDK/Scripts/Input/Controller/NRInput.cs:646-649 | with one controller exactly the domain hand is available |
| NRInputModel.SetDomainHandMode | Assets/NRSDK/Scripts/Input/Controller/NRInput.cs:559-568 | the domain hand becomes the hand; the change event fires (with the new hand) iff it differs from the current one |
| NRInputModel.SetDomainHandTwice | Assets/NRSDK/Scripts/Input/Controller/NRInput.cs:559-568 | setting the same hand a second time fires no event |
| NRInputModel.CheckControllerConnection | Assets/NRSDK/Scripts/Input/Controller/NRInput.cs:337-355 | a connect event iff the count rose, a disconnect event iff it fell, none if equal; the last count becomes the current one |
| NRInputModel.ConnectionRun | Assets/NRSDK/Scripts/Input/Controller/NRInput.cs:337-355 | over a run of polls the remembered count is the last one polled and there is at most one event per poll |
| NRInputModel.SteadyCountIsSilent | Assets/NRSDK/Scripts/Input/Controller/NRInput.cs:340-354 | polling an unchanged count never raises an event |
| NRInputModel.CheckControllerRecentered | Assets/NRSDK/Scripts/Input/Controller/NRInput.cs:358-376 | without a recenter nothing happens; with one, Before/Recentering/After fire in order, except that the ignore flag suppresses Before and After but not Recentering, and the flag is then reset |
| NRInputModel.IgnoreLastsOneRecenter | Assets/NRSDK/Scripts/Input/Controller/NRInput.cs:362-374 | the ignore flag covers one recenter only: the next one raises all three events |
| NRInputModel.AdaptInputSource | Assets/NRSDK/Scripts/Input/Controller/NRInput.cs:506-512 | Hands falls back to Controller exactly when hand tracking is unsupported; Controller is kept |
| NRInputModel.AdaptIdempotent | Assets/NRSDK/Scripts/Input/Controller/NRInput.cs:506-512 | adapting twice is adapting once |
| NRInputModel.SetInputSourceSafely | Assets/NRSDK/Scripts/Input/Controller/NRInput.cs:486-502 | the adapted source is tried first and, only when that fails, Controller; Hands is never tried without hand-tracking support |
| HMDTracker.AdaptTrackingType | Assets/NRSDK/Scripts/NRHMDPoseTracker.cs:202-231 | a mode the device supports is kept; 6DoF without position falls back to 3DoF when rotation is supported, else 0DoF; 3DoF and stable 0DoF without rotation fall back to 0DoF; 0DoF is unchanged |
| HMDTracker.AdaptIsSupportedAndIdempotent | Assets/NRSDK/Scripts/NRHMDPoseTracker.cs:202-231 | the adapted mode is always supported by the device and adapting twice is adapting once |
| HMDTracker.NewTracker | Assets/NRSDK/Scripts/NRHMDPoseTracker.cs:93-123 | a new tracker is unlocked and its last lost-tracking reason is NONE |
| HMDTracker.AutoAdaptTrackingType | Assets/NRSDK/Scripts/NRHMDPoseTracker.cs:187-198 | with auto adaption on the mode ends supported by the device; with it off nothing changes |
| HMDTracker.ChangeMode | Assets/NRSDK/Scripts/NRHMDPoseTracker.cs:236-268 | fails, reporting the current type in the callback and changing nothing, iff the target equals the current mode or the lock is held; otherwise announces the change from → to and takes the lock |
| HMDTracker.FinishModeChange | Assets/NRSDK/Scripts/NRHMDPoseTracker.cs:254-268 | the worker sets the mode to the target only on success, reports the result with the resulting mode, and releases the lock |
| HMDTracker.ChangeIsExclusive | Assets/NRSDK/Scripts/NRHMDPoseTracker.cs:240-266 | a second request while a change runs is refused with the unchanged mode; after the first completes successfully the mode is its target |
| HMDTracker.CheckHMDPoseState | Assets/NRSDK/Scripts/NRHMDPoseTracker.cs:647-674 | skipped while the session is not running, in 0DoF or stable 0DoF, or during a mode change; otherwise the lost event fires on NONE → non-NONE, the ready event on non-NONE → NONE, and the reason is remembered |
| HMDTracker.PoseRun | Assets/NRSDK/Scripts/NRHMDPoseTracker.cs:647-674 | checking the pose state over any run of frames never changes the mode or the lock |
| HMDTracker.PoseEventsAlternate | Assets/NRSDK/Scripts/NRHMDPoseTracker.cs:659-673 | lost and ready events strictly alternate; the first is the opposite of the starting condition and the last agrees with where the run ends |
| KernalErrors.ResultCodeInjective | Assets/NRSDK/Scripts/Interfaces/Types/NativeResult.cs:16-100 | the numeric values of the native results are pairwise distinct, so a code names one result |
| KernalErrors.NewError | Assets/NRSDK/Scripts/NRKernalException.cs:23-246 | an error keeps its class, message and result; the base classes take the level they are given, every subclass the level its constructor fixes |
| KernalErrors.NormalSubclasses | Assets/NRSDK/Scripts/NRKernalException.cs:66-224 | exactly the invalid-argument, RGB-camera-not-found, unsupported-hand-tracking and permission-deny errors are Normal; every other subclass is High |
| KernalErrors.GetErrorMsg | Assets/NRSDK/Scripts/NRKernalException.cs:31-57 | a native error's message is "Error Code-", its decimal code, ": " and its text; any other error's message is its text |
| KernalErrors.ErrorMsgCarriesCode | Assets/NRSDK/Scripts/NRKernalException.cs:54-57 | the digits after the prefix of a native error's message read back as the error's result code |
| KernalErrors.Check | Assets/NRSDK/Scripts/Interfaces/NativeErrorListener.cs:44-119 | success has no effect; without the throw flag a failure is only logged; with it, exactly the mapped results become a native error of their class carrying the result, whose message is the "[type] function: " module tag followed by the class's text ("Failed!", "Glasses connect error!", ...), handed to the session manager and rethrown exactly when High |
| KernalErrors.GlassesResultsAreConnectErrors | Assets/NRSDK/Scripts/Interfaces/NativeErrorListener.cs:50-112 | every glasses, control-, IMU- and display-channel result becomes a High glasses-connect error with message tag + "Glasses connect error!", and is rethrown |
| KernalErrors.DisplayModeResults | Assets/NRSDK/Scripts/Interfaces/NativeErrorListener.cs:50-112 | both display-mode results become a High, rethrown display-mode-mismatch error with message tag + "Display mode mismatch, as MRSpace mode is needed!" |
| KernalErrors.FailureIsNotRethrown | Assets/NRSDK/Scripts/Interfaces/NativeErrorListener.cs:50-112 | a plain failure is a Normal native error with message tag + "Failed!": handed on and not rethrown |
| Session.NewManager | Assets/NRSDK/Scripts/Managers/NRSessionManager.cs:49 | a new manager is uninitialized, without error, with nothing raised |
| Session.HandleKernalError | Assets/NRSDK/Scripts/Managers/NRSessionManager.cs:290-303 | keeps the manager consistent (the error flag is set exactly when a High fatal error is shown); after a fatal error nothing changes; otherwise the error is raised and the session fails exactly when the error is High; the state is never touched |
| Session.CreateSession | Assets/NRSDK/Scripts/Managers/NRSessionManager.cs:197-265 | only from UnInitialized or Destroyed; the session becomes Initialized exactly when no behaviour was bound, tracker and swap chain are present and the device was created, and the subsystems exist exactly from then on; a missing tracker raises the missing-component error; no other state is reached |
| Session.StartSession | Assets/NRSDK/Scripts/Managers/NRSessionManager.cs:460-520 | refused while Running, Destroyed or failed; the session runs exactly when the device started, the subsystems were created and the device is targeted; an untargeted device category raises the High error "Unsuppport running on <category>!" and fails the session; a started device with no behaviour bound, or targeted but without subsystems, throws a null reference and leaves the manager unchanged |
| Session.AbortedCreateThenStartThrows | Assets/NRSDK/Scripts/Managers/NRSessionManager.cs:239-513 | after a creation whose device call threw (without a fatal error) the behaviour is bound but the subsystems are not, and a start on a targeted device throws a null reference with the session still UnInitialized |
| Session.CreateThenStartRuns | Assets/NRSDK/Scripts/Managers/NRSessionManager.cs:197-520 | a session created without error starts on a targeted device and runs, with nothing thrown |
| Session.DisableSession | Assets/NRSDK/Scripts/Managers/NRSessionManager.cs:523-544 | only a running, healthy session pauses, and pausing resets the lost-tracking reason to INITIALIZING |
| Session.ResumeSession | Assets/NRSDK/Scripts/Managers/NRSessionManager.cs:547-564 | only a paused, healthy session resumes, and resuming changes nothing but the state |
| Session.DestroySession | Assets/NRSDK/Scripts/Managers/NRSessionManager.cs:567-577 | a created session is destroyed even after a fatal error; afterwards the manager is never initialized |
| Session.DisableResumeRoundTrip | Assets/NRSDK/Scripts/Managers/NRSessionManager.cs:523-564 | disabling then resuming a running session gives it back, with only the lost-tracking reason reset |
| Session.FatalErrorFreezesSession | Assets/NRSDK/Scripts/Managers/NRSessionManager.cs:293-302 | after a High error every later error is ignored and start, disable and resume change nothing |
| Session.GetErrorTipDesc | Assets/NRSDK/Scripts/Managers/NRSessionManager.cs:321-363 | a glasses-connect error shows the connect-your-glasses tip, and every class outside the nine with a tip shows the unknown-error tip |
| Session.GetErrorTip | Assets/NRSDK/Scripts/Managers/NRSessionManager.cs:310-319 | a native error's tip is its description followed by its decimal result code in parentheses; other errors show the description alone |
| Session.TipStartsWithDescription | Assets/NRSDK/Scripts/Managers/NRSessionManager.cs:310-319 | a tip always begins with its description, and a native one adds a parenthesised code after it |
| Renderer.NewRender | Assets/NRSDK/Scripts/NRRenderer.cs:68 | a new renderer is uninitialized and has issued no event |
| Renderer.Start | Assets/NRSDK/Scripts/NRRenderer.cs:93-103 | only an uninitialized renderer starts: it becomes Initialized and queues the start event after those already issued; in any other state nothing changes |
| Renderer.Pause | Assets/NRSDK/Scripts/NRRenderer.cs:106-114 | the state is left to the render thread; the pause event is queued exactly when Running |
| Renderer.DelayResume | Assets/NRSDK/Scripts/NRRenderer.cs:117-131 | the state is left to the render thread; the resume event is queued exactly when Paused |
| Renderer.RunOnRenderThread | Assets/NRSDK/Scripts/NRRenderer.cs:34-162 | start and resume events make the renderer Running, the pause event Paused, and every other id (the stop event included) leaves the state alone |
| Renderer.RunNext | Assets/NRSDK/Scripts/NRRenderer.cs:143-162 | the render thread consumes the oldest issued event and applies it; with nothing issued nothing happens |
| Renderer.Destroy | Assets/NRSDK/Scripts/NRRenderer.cs:164-179 | a started renderer becomes Destroyed without issuing an event; an uninitialized or destroyed one is untouched |
| Renderer.StartPauseResume | Assets/NRSDK/Scripts/NRRenderer.cs:93-162 | start, pause and resume, each followed by the render thread, go Running, Paused, Running and leave nothing pending |
| Renderer.DestroyedIssuesNothing | Assets/NRSDK/Scripts/NRRenderer.cs:96-166 | once destroyed, start, pause, resume and destroy change nothing |
| Renderer.LateStartEventRevives | Assets/NRSDK/Scripts/NRRenderer.cs:143-175 | a start event still pending when the renderer is destroyed makes it Running again once run, because the render thread does not check the state |
| Renderer.PauseResumeRestores | Assets/NRSDK/Scripts/NRRenderer.cs:106-162 | any running renderer with nothing pending, paused and then resumed with the render thread catching up after each call, is exactly as it was, passing through Paused |
| Renderer.PauseRunsAfterPending | Assets/NRSDK/Scripts/NRRenderer.cs:106-162 | a pause issued while events are pending is queued after them, and once the render thread has run them all the renderer is Paused |
| Renderer.Drain | Assets/NRSDK/Scripts/NRRenderer.cs:143-162 | the render thread running every pending event leaves nothing pending |
| Renderer.DrainEndsWithPause | Assets/NRSDK/Scripts/NRRenderer.cs:143-162 | whatever events come first, a queue that ends in a pause drains to Paused |
| NativeTypes.Vec3Get | Assets/NRSDK/Scripts/Interfaces/Types/NativeVector3f.cs:50-67 | indices 0, 1, 2 read X, Y, Z and every other index reads -1 |
| NativeTypes.Vec3Set | Assets/NRSDK/Scripts/Interfaces/Types/NativeVector3f.cs:68-83 | a write to 0..2 is read back there and changes no other index; a write elsewhere is ignored |
| NativeTypes.ToUnityVector3 | Assets/NRSDK/Scripts/Interfaces/Types/NativeVector3f.cs:87-90 | keeps X and Y and negates Z (right- to left-handed) |
| NativeTypes.ToUnityVector3Involutive | Assets/NRSDK/Scripts/Interfaces/Types/NativeVector3f.cs:87-90 | converting twice gives the vector back |
| NativeTypes.Mat3Get | Assets/NRSDK/Scripts/Interfaces/Types/NativeMat3f.cs:34-51 | cell (i, j) is component i of column j, and -1 outside the 3x3 range |
| NativeTypes.Mat3Set | Assets/NRSDK/Scripts/Interfaces/Types/NativeMat3f.cs:52-67 | a write inside the 3x3 range is read back there and changes no other cell; a write outside it is ignored |
| NativeTypes.Mat3Identity | Assets/NRSDK/Scripts/Interfaces/Types/NativeMat3f.cs:82-88 | the so-called identity has every cell zero |
| NativeTypes.Mat3GetFlat | Assets/NRSDK/Scripts/Interfaces/Types/NativeMat3f.cs:96-122 | fails with an index-out-of-range error exactly when the index is outside 0..8 |
| NativeTypes.Mat3SetFlat | Assets/NRSDK/Scripts/Interfaces/Types/NativeMat3f.cs:123-158 | fails with an index-out-of-range error exactly when the index is outside 0..8 |
| NativeTypes.Mat3FlatIsRowMajor | Assets/NRSDK/Scripts/Interfaces/Types/NativeMat3f.cs:34-158 | flat index k reads and writes the cell at row k / 3, column k % 3 of the two-index accessor |
| NativeTypes.Mat4FromFloats | Assets/NRSDK/Scripts/Interfaces/Types/NativeMat4f.cs:40-47 | the matrix built from sixteen floats lays them back out unchanged |
| NativeTypes.Mat4ToFloats | Assets/NRSDK/Scripts/Interfaces/Types/NativeMat4f.cs:71-79 | sixteen floats, column by column |
| NativeTypes.Mat4FloatsRoundTrip | Assets/NRSDK/Scripts/Interfaces/Types/NativeMat4f.cs:40-79 | the float-array constructor and the float layout are inverse to each other in both directions |
| NativeTypes.Mat4GetFlat | Assets/NRSDK/Scripts/Interfaces/Types/NativeMat4f.cs:112-152 | fails with an index-out-of-range error exactly when the index is outside 0..15 |
| NativeTypes.Mat4SetFlat | Assets/NRSDK/Scripts/Interfaces/Types/NativeMat4f.cs:153-210 | fails with an index-out-of-range error exactly when the index is outside 0..15 |
| NativeTypes.Mat4Get | Assets/NRSDK/Scripts/Interfaces/Types/NativeMat4f.cs:94-104 | fails exactly when 4 * row + column is outside 0..15; inside the matrix it reads the float at column * 4 + row, i.e. row `row` of column `column` |
| NativeTypes.Mat4FlatIsTransposeOfFloats | Assets/NRSDK/Scripts/Interfaces/Types/NativeMat4f.cs:71-152 | flat index k reads float 4 * (k % 4) + k / 4 of the float layout: the flat indexer is row-major, the layout column-major |
| NativeTypes.Mat4SetThenGet | Assets/NRSDK/Scripts/Interfaces/Types/NativeMat4f.cs:112-210 | a flat write inside the range succeeds, is read back at its index and changes no other index |
| PhoneScreen.NewButtonState | Assets/NRSDK/Scripts/Input/Controller/PhoneControllerDisplay/NRPhoneScreenProvider.cs:41-43 | a new state has three buttons and is already reset |
| PhoneScreen.Reset | Assets/NRSDK/Scripts/Input/Controller/PhoneControllerDisplay/NRPhoneScreenProvider.cs:45-53 | every button released and the touch at zero |
| PhoneScreen.Set | Assets/NRSDK/Scripts/Input/Controller/PhoneControllerDisplay/NRPhoneScreenProvider.cs:55-62 | the APP, touch and HOME flags land in slots 0, 1, 2 and the touch coordinates are stored |
| PhoneScreen.TransformTo | Assets/NRSDK/Scripts/Input/Controller/PhoneControllerDisplay/NRPhoneScreenProvider.cs:64-76 | the controller state has the first two buttons swapped, HOME kept and the touch copied, whether or not a target was given |
| PhoneScreen.SetThenTransform | Assets/NRSDK/Scripts/Input/Controller/PhoneControllerDisplay/NRPhoneScreenProvider.cs:55-76 | after Set and TransformTo the controller sees [touch, app, home] and the stored coordinates |
| PhoneScreen.ToInt32At | Assets/NRSDK/Scripts/Input/Controller/PhoneControllerDisplay/NRPhoneScreenProvider.cs:83-84 | succeeds exactly when four bytes are available from the start index, with a 32-bit value; a start past the end is a start-index error |
| PhoneScreen.DeSerialize | Assets/NRSDK/Scripts/Input/Controller/PhoneControllerDisplay/NRPhoneScreenProvider.cs:78-86 | succeeds exactly for eleven bytes or more; each button present in the data is pressed iff its byte is non-zero; fields past a short message keep their old values and under three bytes is an index error |
| PhoneScreen.Int32BytesRoundTrip | Assets/NRSDK/Scripts/Input/Controller/PhoneControllerDisplay/NRPhoneScreenProvider.cs:83-84 | the four little-endian bytes of a 32-bit value read back as that value wherever they sit |
| PhoneScreen.DeSerializeRoundTrip | Assets/NRSDK/Scripts/Input/Controller/PhoneControllerDisplay/NRPhoneScreenProvider.cs:78-86 | decoding an encoded state gives the state back, whatever the receiving state held |
| EncodeConfig.NewCameraParameters | Assets/NRSDK/Scripts/Capture/Models/CameraParameters.cs:19-34 | a new parameter set keeps the requested camera and blend modes, is fully opaque at the default 30 fps, 1280x720, PNG, single-sided, roll unlocked, and records both microphone and application audio |
| EncodeConfig.AudioSelectionIsFaithful | Assets/NRSDK/Scripts/Capture/Models/CameraParameters.cs:60-62 | the two capture-audio flags determine the audio state, and both are off exactly for NoAudio |
| EncodeConfig.GetCodecTypeByPath | Assets/NRSDK/Scripts/Capture/Encoder/EncodeTypes.cs:150-164 | the codec is RTMP exactly for paths starting "rtmp://", RTP exactly for paths starting "rtp://", and local exactly for all others |
| EncodeConfig.SchemesExclusive | Assets/NRSDK/Scripts/Capture/Encoder/EncodeTypes.cs:152-157 | no path starts with both schemes, so the order of the two tests does not matter |
| EncodeConfig.CodecOfSchemePlusRest | Assets/NRSDK/Scripts/Capture/Encoder/EncodeTypes.cs:150-164 | any text after a streaming scheme keeps that scheme's codec |
| EncodeConfig.NewEncodeConfig | Assets/NRSDK/Scripts/Capture/Encoder/EncodeTypes.cs:122-138 | the codec agrees with the path; widescreen doubles the width; capturing both sides halves the height (truncated); alpha is used exactly for non-positive opacity; audio flags, fps and the default bit rates come from the parameters and constants |
| EncodeConfig.SetOutPutPath | Assets/NRSDK/Scripts/Capture/Encoder/EncodeTypes.cs:141-145 | path and codec change together and stay consistent; no other field changes |
| EncodeConfig.SetOutPutPathAgreesWithConstructor | Assets/NRSDK/Scripts/Capture/Encoder/EncodeTypes.cs:122-145 | redirecting a configuration gives the configuration built directly with the new path |
| EncodeConfig.DefaultEncoderSettings | Assets/NRSDK/Scripts/Capture/Encoder/EncodeTypes.cs:122-138 | with the default parameters the encoder records 1280x720 at 30 fps with both audio sources and no alpha |
| Permissions.NewRequestResult | Assets/NRSDK/Scripts/Android/AndroidPermissionsRequestResult.cs:21-26 | both arrays, null or not, are stored as given |
| Permissions.IsAllGranted | Assets/NRSDK/Scripts/Android/AndroidPermissionsRequestResult.cs:39-58 | true exactly when neither array is null and every grant is true; an empty request counts as granted and the names are not compared with the grants |
| Permissions.ToString | Assets/NRSDK/Scripts/Android/AndroidPermissionsRequestResult.cs:62-70 | a null names array throws, as does a null or short grant array once a name needs it; otherwise one "Name:… GrantResult:…" line per name, paired with the grant at its index |
| Permissions.OneLinePerName | Assets/NRSDK/Scripts/Android/AndroidPermissionsRequestResult.cs:65-68 | the summary has exactly one line break per permission name, when no name contains a line break |
| VideoCapture.SupportedResolutions | Assets/NRSDK/Scripts/Capture/NRVideoCapture.cs:37-68 | three resolutions at the default frame rate: the RGB camera's (1280x720 without one), then half of it and one and a half times it, each rounded toward zero |
| VideoCapture.DefaultResolutions | Assets/NRSDK/Scripts/Capture/NRVideoCapture.cs:41-66 | without an RGB camera the offered sizes are 1280x720, 640x360 and 1920x1080 at 30 fps |
| VideoCapture.GetSupportedFrameRatesForResolution | Assets/NRSDK/Scripts/Capture/NRVideoCapture.cs:109-112 | every resolution offers only the default recording rate |
| VideoCapture.StartRecording | Assets/NRSDK/Scripts/Capture/NRVideoCapture.cs:144-179 | while recording the call is refused with an unknown error; otherwise the callback reports success exactly when the capture context starts, recording begins exactly then, and a throwing context is rethrown after an unknown-error callback |
| VideoCapture.StopRecording | Assets/NRSDK/Scripts/Capture/NRVideoCapture.cs:290-314 | when not recording the call is refused with an unknown error; otherwise success and the end of recording come exactly with a returning stop, and a throwing stop leaves recording on and is rethrown |
| VideoCapture.StartStartStop | Assets/NRSDK/Scripts/Capture/NRVideoCapture.cs:144-314 | start succeeds, a second start is refused while recording continues, and stop then succeeds and ends recording |
| VideoCapture.StartStopFromIdle | Assets/NRSDK/Scripts/Capture/NRVideoCapture.cs:144-314 | from idle, a start and a stop that both succeed return the capture to idle; a failed start leaves it idle, rethrows, and the following stop is refused |
| VideoCapture.RefusedExactlyWhenInWrongState | Assets/NRSDK/Scripts/Capture/NRVideoCapture.cs:144-314 | a start is refused without effect exactly when already recording, and a stop exactly when not recording |
| NRTools.TimeParts | Assets/NRSDK/Scripts/Utility/NRTools.cs:75-80 | for non-negative times within the 32-bit range, minutes and seconds are below 60 and hours, minutes and seconds add back up to the whole seconds of the input |
| NRTools.TenSecondsRenderAsThreeDigits | Assets/NRSDK/Scripts/Utility/NRTools.cs:81 | as written, zero renders as "00" but ten renders as "010", so 10 000 ms becomes 00:00:010 |
| NRTools.TimeFieldAsWritten | Assets/NRSDK/Scripts/Utility/NRTools.cs:81 | the field as written (`> 10` test): its digits read back as the field, and below 100 it is two characters wide for every value except 10 |
| NRTools.GetTimeByMSecondsAsWritten | Assets/NRSDK/Scripts/Utility/NRTools.cs:75-82 | the rendering as written: below 100 hours it is eight characters exactly when no field is 10 |
| NRTools.TimeField | Assets/NRSDK/Scripts/Utility/NRTools.cs:81 | the corrected field (`>= 10` test, see Findings): a field below 100 renders as exactly two decimal digits that read back as the field |
| NRTools.GetTimeByMSeconds | Assets/NRSDK/Scripts/Utility/NRTools.cs:75-82 | the corrected rendering (see Findings): below 100 hours the time renders as hh:mm:ss, eight characters of digits and two colons |
| NRTools.AsWrittenAgreesAwayFromTen | Assets/NRSDK/Scripts/Utility/NRTools.cs:75-82 | below 100 hours the rendering as written equals the corrected one exactly when no field is 10 |
| NRTools.LeadingZero | Assets/NRSDK/Scripts/Utility/NRTools.cs:81 | the "0" the code puts in front of a field does not change the value its digits read back as |
| NRTools.TimeRoundTrip | Assets/NRSDK/Scripts/Utility/NRTools.cs:75-82 | for the corrected rendering, below 100 hours the hours, minutes and seconds read from the rendered time give back the whole seconds of the input |
| NRTools.GetTimeStampNanos | Assets/NRSDK/Scripts/Utility/NRTools.cs:94-97 | the result is an unsigned 64-bit value congruent to the millisecond stamp times 10^6 modulo 2^64 |
| NRTools.NanosExactForRealisticStamps | Assets/NRSDK/Scripts/Utility/NRTools.cs:94-97 | for stamps below 2^64 / 10^6 ms the product does not wrap |
| StringUtility.PlainTextFormatsToItself | Assets/NRSDK/Scripts/Utility/StringUtility.cs:27-37 | formatting text without braces gives the text back, whatever the arguments |
| StringUtility.PlaceholderThenText | Assets/NRSDK/Scripts/Utility/StringUtility.cs:27-37 | a one-digit placeholder followed by plain text formats as that argument followed by the text |
| StringUtility.Format | Assets/NRSDK/Scripts/Utility/StringUtility.cs:27-76 | a null format throws "Format is invalid." before anything is formatted; otherwise composite formatting of the arguments |
| Gradle.TryParseIgnoresSpaces | Assets/NRSDK/Editor/Scripts/AndroidGradleTemplate.cs:74-76 | spaces, tabs and line breaks before and after a number do not change what it parses to |
| StringUtility.FormatParams | Assets/NRSDK/Scripts/Utility/StringUtility.cs:84-99 | a null format throws first, then a null argument array throws "Args is invalid."; otherwise the same as the fixed-arity overloads |
| StringUtility.GetFullName | Assets/NRSDK/Scripts/Utility/StringUtility.cs:116-125 | a null type throws "Type is invalid."; a null or empty name gives the type's full name unchanged |
| StringUtility.FullNameJoinsWithDot | Assets/NRSDK/Scripts/Utility/StringUtility.cs:124 | a non-empty name is appended to the type's full name after a single dot |
| StringUtility.Tier | Assets/NRSDK/Scripts/Utility/StringUtility.cs:130-163 | the chosen unit is the largest power of 1024 (up to 1024^6) not above the size |
| StringUtility.GetByteLengthString | Assets/NRSDK/Scripts/Utility/StringUtility.cs:130-163 | sizes below 1024 are shown exactly with " B"; for larger ones the unit is that of their tier, KB to EB, and the value is the exact quotient of the size by that tier's power of 1024 (before the code's float division and two-decimal rendering) |
| StringUtility.ScaledValueInRange | Assets/NRSDK/Scripts/Utility/StringUtility.cs:130-163 | below an exabyte the exact quotient of the size by its unit lies in [1, 1024); the text the code shows can still read "1024.00" after float rounding |
| VisualProfiler.DigitOf | Assets/NRSDK/Scripts/NRVisualProfiler.cs:794-795 | for a non-negative value the character written is the decimal digit of value % 10 |
| VisualProfiler.LsbDigitsReversed | Assets/NRSDK/Scripts/NRVisualProfiler.cs:792-803 | the digits produced least significant first, reversed, are the decimal rendering of a positive value |
| VisualProfiler.WriteLsbDigits | Assets/NRSDK/Scripts/NRVisualProfiler.cs:790-795 | writes the digits least significant first from the start index and returns the index after them, failing exactly when they do not fit; zero writes nothing; cells outside the written range are untouched |
| VisualProfiler.ReverseRange | Assets/NRSDK/Scripts/NRVisualProfiler.cs:797-803 | the range between the two indices is reversed in place and everything outside it is untouched |
| VisualProfiler.MemoryItoA | Assets/NRSDK/Scripts/NRVisualProfiler.cs:788-806 | writes the decimal digits of a positive value at the start index, most significant first, and returns the index after them; zero writes nothing; a buffer too short throws; nothing outside the digits changes |
| VisualProfiler.ConvertMegabytesToBytes | Assets/NRSDK/Scripts/NRVisualProfiler.cs:889-892 | a non-negative count is multiplied by 2^20 exactly; a negative one is sign-extended and wraps to 2^64 plus the product |
| VisualProfiler.Clamp | Assets/NRSDK/Scripts/NRVisualProfiler.cs:119 | the result lies within the bounds, equals the value inside them and the nearer bound outside |
| VisualProfiler.SetWindowScale | Assets/NRSDK/Scripts/NRVisualProfiler.cs:116-120 | the stored scale lies in [0.5, 5] and a value already in range is kept |
| VisualProfiler.SetWindowFollowSpeed | Assets/NRSDK/Scripts/NRVisualProfiler.cs:128-132 | the stored speed is the value's magnitude |
| VisualProfiler.SettersAreIdempotent | Assets/NRSDK/Scripts/NRVisualProfiler.cs:116-132 | storing the value read back from either setter changes nothing |
| Gradle.TryParseInt | Assets/NRSDK/Editor/Scripts/AndroidGradleTemplate.cs:74-76 | the parsed number always fits an int (a text that does not parse gives 0) |
| StringUtility.SpaceAfterIndexIgnored | Assets/NRSDK/Scripts/Utility/StringUtility.cs:27-37 | a space between a placeholder index and its closing brace leaves the formatted text unchanged |
| Gradle.TryParseRoundTrip | Assets/NRSDK/Editor/Scripts/AndroidGradleTemplate.cs:74-76 | the decimal rendering of a non-negative int parses back to it |
| Gradle.VersionBelowIsLexLess | Assets/NRSDK/Editor/Scripts/AndroidGradleTemplate.cs:78-95 | the nested comparison of the three version numbers is exactly lexicographic order |
| Gradle.VersionText | Assets/NRSDK/Editor/Scripts/AndroidGradleTemplate.cs:64-68 | a line in which the plugin token is absent or at the very start yields no version |
| Gradle.VersionLine | Assets/NRSDK/Editor/Scripts/AndroidGradleTemplate.cs:61-105 | fails exactly when the token is followed by no quote; claims the line exactly when the text up to the quote has three dot-separated parts that compare below the minimum, and then every occurrence of that text is replaced by 3.4.3 |
| Gradle.AnyContainedIsSome | Assets/NRSDK/Editor/Scripts/AndroidGradleTemplate.cs:166-175 | a line is removed exactly when it contains one of the removed dependencies |
| Gradle.WithoutContained | Assets/NRSDK/Editor/Scripts/AndroidGradleTemplate.cs:124-131 | after a line is seen, the pending dependencies are exactly those not contained in it |
| Gradle.MissingSupportEmptyIffAllPresent | Assets/NRSDK/Editor/Scripts/AndroidGradleTemplate.cs:221-232 | the prefix of missing support flags is empty exactly when every token was seen in the file |
| Gradle.FirstPresent | Assets/NRSDK/Editor/Scripts/AndroidGradleTemplate.cs:206-216 | the token a line is rewritten to is a requested token, seen in the file and contained in the line; none is chosen exactly when no such token exists |
| Gradle.FreshPatcher | Assets/NRSDK/Editor/Scripts/AndroidGradleTemplate.cs:43-184 | a new patcher has the requested kind |
| Gradle.Find | Assets/NRSDK/Editor/Scripts/AndroidGradleTemplate.cs:251 | finds the patcher of a kind when there is one, and reports none exactly when no patcher has that kind |
| Gradle.GetOrAddPatcher | Assets/NRSDK/Editor/Scripts/AndroidGradleTemplate.cs:249-257 | returns the index of a patcher of the requested kind; an existing one leaves the template unchanged, otherwise a fresh one is appended; at most one patcher per kind is kept |
| Gradle.SetMinPluginVersion | Assets/NRSDK/Editor/Scripts/AndroidGradleTemplate.cs:258-263 | keeps one patcher per kind and afterwards a plugin-version patcher holds the given minimum |
| Gradle.AddDependency | Assets/NRSDK/Editor/Scripts/AndroidGradleTemplate.cs:265-270 | keeps one patcher per kind and afterwards the add-dependencies patcher lists the dependency |
| Gradle.RemoveDependency | Assets/NRSDK/Editor/Scripts/AndroidGradleTemplate.cs:272-277 | keeps one patcher per kind and afterwards the remove-dependencies patcher lists the dependency |
| Gradle.AddSupportToken | Assets/NRSDK/Editor/Scripts/AndroidGradleTemplate.cs:234-284 | adding a token already requested fails with a duplicate-key error; otherwise the support patcher lists the token and one patcher per kind is kept |
| Gradle.PreprocessLine | Assets/NRSDK/Editor/Scripts/AndroidGradleTemplate.cs:56-195 | the first pass never changes a patcher's kind and keeps it well formed |
| Gradle.PreprocessLines | Assets/NRSDK/Editor/Scripts/AndroidGradleTemplate.cs:295-301 | the first pass over all lines keeps each patcher's kind and well-formedness |
| Gradle.PreprocessedDependencies | Assets/NRSDK/Editor/Scripts/AndroidGradleTemplate.cs:122-301 | after the first pass the dependencies still to add are exactly those requested that no line contains |
| Gradle.PreprocessedSupport | Assets/NRSDK/Editor/Scripts/AndroidGradleTemplate.cs:185-301 | after the first pass a support token counts as seen exactly when it was seen already or some line contains it |
| Gradle.PreprocessKeepsRemovals | Assets/NRSDK/Editor/Scripts/AndroidGradleTemplate.cs:158-161 | the first pass does not change a remove-dependencies patcher |
| Gradle.PreprocessAll | Assets/NRSDK/Editor/Scripts/AndroidGradleTemplate.cs:295-301 | the first pass keeps the patcher kinds, in order, and their well-formedness |
| Gradle.ProcessLine | Assets/NRSDK/Editor/Scripts/AndroidGradleTemplate.cs:61-219 | only the plugin-version patcher can fail; only the support patcher changes state in the second pass; any other patcher either claims the line or leaves the pending text as it was |
| Gradle.ProcessPatchers | Assets/NRSDK/Editor/Scripts/AndroidGradleTemplate.cs:306-312 | offering a line to all patchers keeps their kinds, in order, and their well-formedness |
| Gradle.ProcessLines | Assets/NRSDK/Editor/Scripts/AndroidGradleTemplate.cs:303-318 | the second pass keeps the patcher kinds and never produces more lines than it read |
| Gradle.PreprocessGradleFile | Assets/NRSDK/Editor/Scripts/AndroidGradleTemplate.cs:286-326 | with no patcher nothing is written; the patcher kinds and their well-formedness survive both passes |
| Gradle.FirstClaimDecides | Assets/NRSDK/Editor/Scripts/AndroidGradleTemplate.cs:306-312 | when earlier patchers decline a line, the first patcher to claim it decides its replacement |
| Gradle.SinglePatcher | Assets/NRSDK/Editor/Scripts/AndroidGradleTemplate.cs:306-318 | with one patcher a line gets exactly that patcher's answer |
| Gradle.RemovingDeletesMentioningLines | Assets/NRSDK/Editor/Scripts/AndroidGradleTemplate.cs:163-326 | a file patched only to remove dependencies loses exactly the lines mentioning one of them and keeps all others in order |
| Gradle.AddingPass | Assets/NRSDK/Editor/Scripts/AndroidGradleTemplate.cs:133-318 | the second pass of an add-dependencies patcher puts the pending block before each marker line and keeps every other line |
| Gradle.AddingInsertsBeforeMarker | Assets/NRSDK/Editor/Scripts/AndroidGradleTemplate.cs:122-326 | a file patched only to add dependencies keeps every line and puts the dependencies no line mentions before each marker line |
| Gradle.SupportStep | Assets/NRSDK/Editor/Scripts/AndroidGradleTemplate.cs:197-219 | the first line gets the missing flags in front; a line containing a seen token becomes "token=true" and is claimed; any other is kept |
| Gradle.SupportPass | Assets/NRSDK/Editor/Scripts/AndroidGradleTemplate.cs:197-318 | after the first line, each line with a seen token becomes "token=true" and every other is kept |
| Gradle.FirstSupportPass | Assets/NRSDK/Editor/Scripts/AndroidGradleTemplate.cs:197-318 | the missing flags are put in front of the first line only |
| Gradle.SupportPrefixesFirstLine | Assets/NRSDK/Editor/Scripts/AndroidGradleTemplate.cs:185-326 | a file patched only for support flags gets the flags of tokens no line contains in front of its first line, and each line with a seen token rewritten to "token=true" |
| Overlay.Copy | Assets/NRSDK/Scripts/Overlay/NRSwapChainManager.cs:47-56 | every buffer field comes from the source except the creation flag, which keeps the target's own value |
| Overlay.CopyOverrides | Assets/NRSDK/Scripts/Overlay/NRSwapChainManager.cs:47-56 | copying the same spec twice is copying once, and a later copy fully overrides an earlier one |
| Overlay.CompareTo | Assets/NRSDK/Scripts/Overlay/OverlayBase.cs:112-115 | the overlay comparison is -1, 0 or 1, negative exactly when the depth is smaller and zero exactly when equal |
| Overlay.CompareToIsOrder | Assets/NRSDK/Scripts/Overlay/OverlayBase.cs:112-115 | the comparison is antisymmetric and transitive, so sorting by it is well defined |
| Overlay.SetDirty | Assets/NRSDK/Scripts/Overlay/OverlayBase.cs:122-125 | the overlay becomes dirty when asked and a dirty one stays dirty whatever value is passed |
| Overlay.UpdateDirty | Assets/NRSDK/Scripts/Overlay/OverlayBase.cs:155-163 | viewports are rebuilt exactly when the overlay is dirty and has viewports, and it is clean afterwards; otherwise nothing changes |
| Overlay.DirtyIsSticky | Assets/NRSDK/Scripts/Overlay/OverlayBase.cs:122-125 | passing false never cleans a dirty overlay, and two calls act as one call with either value |
| Overlay.SurfaceId | Assets/NRSDK/Scripts/Overlay/OverlayBase.cs:90-95 | only an external-surface overlay exposes its stored surface; every other overlay reports zero |
| SwapChain.InsertByDepth | Assets/NRSDK/Scripts/Overlay/NRSwapChainManager.cs:643-646 | adding and sorting keeps every overlay already listed, adds exactly the new one, and keeps the list in depth order |
| SwapChain.FirstIndex | Assets/NRSDK/Scripts/Overlay/NRSwapChainManager.cs:681-700 | the position of the first overlay with the given identity |
| SwapChain.RemoveFirst | Assets/NRSDK/Scripts/Overlay/NRSwapChainManager.cs:681-700 | an unlisted overlay leaves the list as it was; otherwise exactly its first entry is removed and depth order is kept |
| SwapChain.UpdateProtectContent | Assets/NRSDK/Scripts/Overlay/NRSwapChainManager.cs:716-754 | the flag ends equal to whether some overlay holds protected content; the codec is started or stopped exactly when that changes; the list and queue are untouched |
| SwapChain.AddLayer | Assets/NRSDK/Scripts/Overlay/NRSwapChainManager.cs:643-679 | the overlay joins the list in depth order and the protected-content flag follows the new list |
| SwapChain.RemoveLayer | Assets/NRSDK/Scripts/Overlay/NRSwapChainManager.cs:681-702 | the overlay leaves the list and the protected-content flag follows the new list |
| SwapChain.Add | Assets/NRSDK/Scripts/Overlay/NRSwapChainManager.cs:595-620 | a listed overlay is ignored; the call fails exactly when an unlisted overlay meets a list of seven; otherwise the overlay is added now when running or queued behind earlier tasks |
| SwapChain.Remove | Assets/NRSDK/Scripts/Overlay/NRSwapChainManager.cs:622-641 | an unlisted overlay is ignored; otherwise it is removed now when running or queued |
| SwapChain.RunTasks | Assets/NRSDK/Scripts/Overlay/NRSwapChainManager.cs:517-524 | running queued tasks in order keeps the list in depth order |
| SwapChain.Update | Assets/NRSDK/Scripts/Overlay/NRSwapChainManager.cs:506-525 | nothing happens until the swap chain is ready; then the whole queue is run and emptied, keeping depth order |
| SwapChain.RunningAddKeepsInvariant | Assets/NRSDK/Scripts/Overlay/NRSwapChainManager.cs:595-646 | adding while running keeps at most seven overlays, in depth order |
| SwapChain.QueuedAddOutlivesRemove | Assets/NRSDK/Scripts/Overlay/NRSwapChainManager.cs:506-641 | an overlay added and removed before the swap chain runs is still listed once it runs, because Remove looks only at the list |
| SwapChain.Range | Assets/NRSDK/Scripts/Overlay/NRSwapChainManager.cs:779-784 | count consecutive numbers from the start |
| SwapChain.ViewPortIndicesAreConsecutive | Assets/NRSDK/Scripts/Overlay/NRSwapChainManager.cs:769-788 | the viewport indices handed out, in list order, are 0, 1, 2, ... up to the number of active viewports, without gaps; inactive overlays get none |
| SwapChain.FlipZ | Assets/NRSDK/Scripts/Overlay/NRSwapChainManager.cs:1005-1008 | keeps x and y and negates z |
| SwapChain.SetFocusPlane | Assets/NRSDK/Scripts/Overlay/NRSwapChainManager.cs:1002-1012 | stores the point, normal and space, marks the focus change, and the OpenGL copies are the point and normal with z negated |
| SwapChain.InitAndActive | Assets/NRSDK/Scripts/Overlay/OverlayBase.cs:145-153 | an overlay is added at most once; the added flag is set afterwards even when there is no manager, but not when the manager throws |
| SwapChain.Destroy | Assets/NRSDK/Scripts/Overlay/OverlayBase.cs:165-172 | only an added overlay is removed, and the flag is cleared afterwards |
| SwapChain.RegistrationIsOnce | Assets/NRSDK/Scripts/Overlay/OverlayBase.cs:145-172 | a second InitAndActive or Destroy in a row changes nothing |
| SwapChain.AddThenDestroyRestoresList | Assets/NRSDK/Scripts/Overlay/OverlayBase.cs:145-172 | an overlay added while running into an empty list and then destroyed leaves the list empty |
| WorldAnchors.NewAnchor | Assets/NRSDK/Scripts/NRWorldAnchor.cs:35-49 | a new anchor component starts with tracking Stopped, anchor state UNKNOWN and no handle |
| WorldAnchors.IndexOfHandle | Assets/NRSDK/Scripts/NRWorldAnchorStore.cs:25 | the position found is the first entry with that handle, and -1 is returned exactly when no entry has it |
| WorldAnchors.Lookup | Assets/NRSDK/Scripts/NRWorldAnchorStore.cs:363 | a lookup by handle finds an anchor exactly when some entry has that handle, and that entry holds the anchor found |
| WorldAnchors.Put | Assets/NRSDK/Scripts/NRWorldAnchorStore.cs:171-187 | after the indexer assignment the handle holds the new anchor, every other handle holds what it did before, the entries are the new one and the old ones under other handles, and keys stay distinct |
| WorldAnchors.RemoveHandle | Assets/NRSDK/Scripts/NRWorldAnchorStore.cs:340-343 | after removal the handle is not found, keys stay distinct, and the remaining entries are exactly those under other handles |
| WorldAnchors.RemoveProcessingAnchorHandle | Assets/NRSDK/Scripts/NRWorldAnchorStore.cs:445-457 | only an in-progress handle equal to the given one is reset to 0; the dictionary, the anchors and the saved table are untouched |
| WorldAnchors.RemoveProcessingReleasesOnlyThatHandle | Assets/NRSDK/Scripts/NRWorldAnchorStore.cs:445-457 | after releasing a nonzero handle neither in-progress slot holds it, a released slot reports idle, and an unrelated slot keeps its creating or remapping status |
| WorldAnchors.HandleProcessingFinish | Assets/NRSDK/Scripts/NRWorldAnchorStore.cs:436-443 | the in-progress handle is released only when mapping reaches SUCCESS or FAILURE; any other state leaves the store unchanged |
| WorldAnchors.CreateAnchor | Assets/NRSDK/Scripts/NRWorldAnchorStore.cs:152-177 | a zero native handle fails and changes nothing; otherwise the anchor object takes the native handle and uuid, is found under that handle, other handles are unaffected, and it becomes the anchor being created |
| WorldAnchors.BindAnchor | Assets/NRSDK/Scripts/NRWorldAnchorStore.cs:184-188 | the anchor object takes the handle and is found under it, every other handle keeps what it held (the anchor's old key included), and the in-progress handles and saved table are untouched |
| WorldAnchors.BindFreshKeepsConsistent | Assets/NRSDK/Scripts/NRWorldAnchorStore.cs:152-188 | binding or creating an anchor not yet in the dictionary under a nonzero handle keeps every anchor held under its own handle |
| WorldAnchors.RebindHoldsUnderBothKeys | Assets/NRSDK/Scripts/NRWorldAnchorStore.cs:184-188 | re-binding an anchor to another handle leaves it held under both the old and the new key, so an anchor is no longer held only under its own handle |
| WorldAnchors.Remap | Assets/NRSDK/Scripts/NRWorldAnchorStore.cs:213-225 | remap reports success exactly when the native remap starts, and only then is the anchor's handle recorded as the one being remapped |
| WorldAnchors.ToMappingState | Assets/NRSDK/Scripts/NRWorldAnchor.cs:140-160 | a non-failure state keeps its ordinal; a failure is REMAP_FAILURE exactly for the anchor being remapped and NEW_FAILURE otherwise |
| WorldAnchors.MappingStateKeepsNonFailures | Assets/NRSDK/Scripts/NRWorldAnchor.cs:140-145 | the mapping state renames exactly the FAILURE state, and any other anchor state can be read back from it |
| WorldAnchors.SetTrackingState | Assets/NRSDK/Scripts/NRWorldAnchor.cs:36-47 | the setter stores the value in the anchor object, changing nothing else, and raises the tracking event once on a change and never when the value is the same |
| WorldAnchors.SetAnchorState | Assets/NRSDK/Scripts/NRWorldAnchor.cs:50-62 | the setter stores the value in the anchor object; on a change it raises the mapping-state event computed before the store is told and lets the store release a finished handle; without a change nothing else happens |
| WorldAnchors.SetStateSeenUnderEveryKey | Assets/NRSDK/Scripts/NRWorldAnchor.cs:36-62 | states set on an anchor are seen under every key that holds it, including the old key of a re-bound anchor |
| WorldAnchors.SettersFireOncePerChange | Assets/NRSDK/Scripts/NRWorldAnchor.cs:36-62 | setting the tracking or anchor state twice to the same value raises no event and changes nothing the second time |
| WorldAnchors.FailureReportsAndReleases | Assets/NRSDK/Scripts/NRWorldAnchor.cs:50-160 | failing the anchor being created reports NEW_FAILURE, failing the anchor being remapped reports REMAP_FAILURE, and either way the in-progress handle is released |
| WorldAnchors.DisableOne | Assets/NRSDK/Scripts/NRWorldAnchorStore.cs:252-258 | one iteration fails the anchor being created or remapped and stops any other, changes no other anchor, and can only clear the in-progress handle equal to the anchor's handle |
| WorldAnchors.DisableAllAnchors | Assets/NRSDK/Scripts/NRWorldAnchorStore.cs:249-259 | disabling keeps the dictionary, the set of anchor objects and the saved table |
| WorldAnchors.DisableFromOutcome | Assets/NRSDK/Scripts/NRWorldAnchorStore.cs:249-259 | over anchors with distinct nonzero handles, the loop leaves anchors it does not reach alone and fails each reached anchor that was being created or remapped when the loop began and stops every other one |
| WorldAnchors.DisableAllAnchorsOutcome | Assets/NRSDK/Scripts/NRWorldAnchorStore.cs:249-259 | with each anchor held under its own handle, every anchor in the dictionary ends FAILURE if it was being created or remapped and tracking Stopped otherwise, with no other field changed, and anchors outside the dictionary are untouched |
| WorldAnchors.DestroyAnchor | Assets/NRSDK/Scripts/NRWorldAnchorStore.cs:336-354 | destroying always succeeds, removes exactly the entry under the anchor's current handle, releases that handle if it was in progress, and keeps the anchors and the saved table |
| WorldAnchors.DestroyKeys | Assets/NRSDK/Scripts/NRWorldAnchorStore.cs:360-367 | the loop over the snapshot of keys never adds an entry, keeps the anchors and the saved table, and only ever clears the in-progress handles |
| WorldAnchors.DestroyAll | Assets/NRSDK/Scripts/NRWorldAnchorStore.cs:357-368 | destroying all never adds an entry and keeps the saved table; it only ever clears the in-progress handles; when each anchor is held under its own handle it empties the dictionary |
| WorldAnchors.DestroyKeysEmpties | Assets/NRSDK/Scripts/NRWorldAnchorStore.cs:357-368 | with each anchor under its own handle, destroying the anchors of keys covering the dictionary empties it |
| WorldAnchors.RebindSurvivesDestroyAll | Assets/NRSDK/Scripts/NRWorldAnchorStore.cs:184-368 | an anchor re-bound from handle 1 to handle 2 stays in the dictionary under 1 after destroying all |
| WorldAnchors.DestroyKeysReleases | Assets/NRSDK/Scripts/NRWorldAnchorStore.cs:357-457 | with each anchor under its own handle, the destroy loop releases an in-progress handle held by an anchor in the dictionary |
| WorldAnchors.DestroyAllReleases | Assets/NRSDK/Scripts/NRWorldAnchorStore.cs:357-457 | with each anchor under its own handle, an in-progress handle held by an anchor in the dictionary is released by destroying all anchors |
| WorldAnchors.GetLoadableAnchorUUID | Assets/NRSDK/Scripts/NRWorldAnchorStore.cs:424-429 | a uuid is loadable exactly when it is saved and no anchor in the dictionary holds it, and it keeps its user key |
| WorldAnchors.SaveAnchor | Assets/NRSDK/Scripts/NRWorldAnchorStore.cs:266-318 | saving reports true at once; a successful native save records the anchor's uuid with its user key, a failed one erases the uuid; nothing but the saved table changes |
| WorldAnchors.EraseAnchor | Assets/NRSDK/Scripts/NRWorldAnchorStore.cs:372-474 | erasing forgets the uuid and reports whether a map file existed to delete |
| WorldAnchors.LoadWithUuid | Assets/NRSDK/Scripts/NRWorldAnchorStore.cs:390-418 | the callback receives a handle exactly when the uuid is saved, its map file exists and the native load returns a nonzero handle; a zero handle forgets the uuid; otherwise nothing changes |
| WorldAnchors.LoadableAfterDestroy | Assets/NRSDK/Scripts/NRWorldAnchorStore.cs:336-429 | a saved anchor is not loadable while in the dictionary and becomes loadable with its user key once destroyed, when no other anchor in the dictionary shares its uuid |
| WorldAnchors.SaveAndEraseLoadability | Assets/NRSDK/Scripts/NRWorldAnchorStore.cs:266-429 | an anchor in the dictionary that was saved is still not loadable, and an erased uuid is never loadable |
| WorldAnchors.UpdateFrom | Assets/NRSDK/Scripts/NRWorldAnchorStore.cs:127-143 | the refresh loop changes only the states of anchors, never the dictionary, a handle or the saved table |
| WorldAnchors.OnUpdate | Assets/NRSDK/Scripts/NRWorldAnchorStore.cs:115-145 | with an empty dictionary nothing happens; otherwise the refresh changes only anchor states |
| WorldAnchors.UpdateFromOutcome | Assets/NRSDK/Scripts/NRWorldAnchorStore.cs:127-143 | with each anchor under its own handle and no handle listed twice, each anchor under a listed handle takes exactly that handle's native tracking and anchor state, and every other anchor is unchanged |
| WorldAnchors.OnUpdateOutcome | Assets/NRSDK/Scripts/NRWorldAnchorStore.cs:115-145 | the per-frame refresh gives each anchor under a listed handle that handle's native states and leaves every other anchor alone |
| Trackables.IndexOfId | Assets/NRSDK/Scripts/Subsystems/Trackable/Provider/NREmulatorTrackableProvider.cs:126-155 | the position found holds the identifier, and -1 is returned exactly when no entry has it |
| Trackables.UpdateData | Assets/NRSDK/Scripts/Subsystems/Trackable/Provider/NREmulatorTrackableProvider.cs:123-179 | an existing identifier keeps its handle, kind and position and takes the new pose, extents and state while other entries stay; a new identifier is appended with the counter's handle and the counter advances |
| Trackables.UpdateTrackableData | Assets/NRSDK/Scripts/Subsystems/Trackable/Provider/NREmulatorTrackableProvider.cs:181-192 | images and planes are updated in their own dictionary without touching the other, any other type is refused with no change, and the handle counter advances by at most one |
| Trackables.UpdateDataKeepsValid | Assets/NRSDK/Scripts/Subsystems/Trackable/Provider/NREmulatorTrackableProvider.cs:123-179 | an update keeps one dictionary's invariant (its own kind, one entry per identifier, distinct nonzero handles below the counter), keeps every existing handle and gives an appended entry the counter's old value |
| Trackables.UpdateKeepsValid | Assets/NRSDK/Scripts/Subsystems/Trackable/Provider/NREmulatorTrackableProvider.cs:31-192 | every handle the shared counter hands out stays unique across both dictionaries after any update |
| Trackables.GetTrackableInfo | Assets/NRSDK/Scripts/Subsystems/Trackable/Provider/NREmulatorTrackableProvider.cs:78-97 | the info found has the handle and belongs to one of the dictionaries, none is found only when no entry has the handle, and a plane found is from the plane dictionary |
| Trackables.IndexOfHandle | Assets/NRSDK/Scripts/Subsystems/Trackable/Provider/NREmulatorTrackableProvider.cs:80-94 | the position found holds the handle, and -1 is returned exactly when no entry has it |
| Trackables.GetIdentify | Assets/NRSDK/Scripts/Subsystems/Trackable/Provider/NREmulatorTrackableProvider.cs:35-54 | the identifier of the entry the handle names, or 0 when the handle is unknown |
| Trackables.GetTrackableType | Assets/NRSDK/Scripts/Subsystems/Trackable/Provider/NREmulatorTrackableProvider.cs:56-65 | the type of the entry the handle names, or BASE when the handle is unknown |
| Trackables.GetTrackingState | Assets/NRSDK/Scripts/Subsystems/Trackable/Provider/NREmulatorTrackableProvider.cs:67-76 | the tracking state of the entry the handle names, or Stopped when the handle is unknown |
| Trackables.GetCenterPose | Assets/NRSDK/Scripts/Subsystems/Trackable/Provider/NREmulatorTrackableProvider.cs:201-264 | the stored center pose for a known handle and the identity pose for an unknown one |
| Trackables.GetSize | Assets/NRSDK/Scripts/Subsystems/Trackable/Provider/NREmulatorTrackableProvider.cs:213-275 | the two stored extents for a known handle and zero for an unknown one |
| Trackables.ListHandles | Assets/NRSDK/Scripts/Subsystems/Trackable/Provider/NREmulatorTrackableProvider.cs:99-121 | the handles of the images or of the planes in insertion order, and none for any other type |
| Trackables.ListedHandlesHaveTheirType | Assets/NRSDK/Scripts/Subsystems/Trackable/Provider/NREmulatorTrackableProvider.cs:56-121 | every listed handle is nonzero and is reported back with the type that was requested |
| Trackables.UpdateKeepsHandle | Assets/NRSDK/Scripts/Subsystems/Trackable/Provider/NREmulatorTrackableProvider.cs:123-150 | an existing image keeps its handle and is found under it with the new data, and a new image is found under the handle the counter gave it |
| Trackables.Create | Assets/NRSDK/Scripts/Managers/NRTrackableManager.cs:77-121 | nothing for handle 0 or a stopped subsystem; the cached trackable for a known handle; otherwise a plane or image cached under the handle and listed once, or the not-implemented exception exactly for a handle of any other type |
| Trackables.CreateKeepsValid | Assets/NRSDK/Scripts/Managers/NRTrackableManager.cs:104-118 | creation keeps the full list free of duplicates and each listed trackable cached under its own handle |
| Trackables.CreateAll | Assets/NRSDK/Scripts/Managers/NRTrackableManager.cs:99-139 | the creation loop keeps the earlier list as a prefix, keeps every cached trackable and does not touch the reported set, also when it stops at an exception, which it does only for a listed non-zero handle of an unsupported type; the trackables created before the exception stay cached |
| Trackables.CreateAllKeepsValid | Assets/NRSDK/Scripts/Managers/NRTrackableManager.cs:99-139 | the creation loop keeps the manager invariant, whether it completes or stops at an exception |
| Trackables.CreateAllSucceeds | Assets/NRSDK/Scripts/Managers/NRTrackableManager.cs:99-139 | the loop never throws when every listed handle is of a supported type |
| Trackables.PartialCreationKept | Assets/NRSDK/Scripts/Managers/NRTrackableManager.cs:99-139 | when a new supported handle is listed before an unsupported one, the loop throws and the earlier trackable remains cached |
| Trackables.CreateAllKnown | Assets/NRSDK/Scripts/Managers/NRTrackableManager.cs:84-139 | creating trackables for handles that are 0 or already cached changes nothing |
| Trackables.FilterInstances | Assets/NRSDK/Scripts/Managers/NRTrackableManager.cs:188-194 | the filtered list holds exactly the trackables that are instances of the requested class |
| Trackables.Unseen | Assets/NRSDK/Scripts/Managers/NRTrackableManager.cs:153-163 | the new trackables are exactly those of the full list not reported before |
| Trackables.GetTrackables | Assets/NRSDK/Scripts/Managers/NRTrackableManager.cs:146-181 | a refresh that throws lets the exception escape with the loop's partial state and nothing marked as reported; otherwise every trackable has been reported afterwards, an All query returns exactly the instances of the class, and a New query returns exactly the instances of the class not reported before |
| Trackables.NewQueryRepeatsEmpty | Assets/NRSDK/Scripts/Managers/NRTrackableManager.cs:146-181 | a New query right after any query, with no uncached handle listed, returns nothing |
| Trackables.GetDataBaseIndex | Assets/NRSDK/Scripts/Trackable/NRTrackable.cs:46-51 | the database index is the identifier's low 16 bits: in range, equal to a small identifier, and congruent to it modulo 65536 |
| Trackables.TrackableTrackingState | Assets/NRSDK/Scripts/Trackable/NRTrackable.cs:55-62 | the trackable reports Stopped whenever the session is not running and the subsystem's state otherwise |
| Trackables.TrackableTypeQuery | Assets/NRSDK/Scripts/Trackable/NRTrackable.cs:65-76 | while the session runs the type is asked anew and remembered; otherwise the remembered type is returned unchanged |
| Trackables.BaseCenterPose | Assets/NRSDK/Scripts/Trackable/NRTrackable.cs:80-83 | the base trackable's center is the origin with no rotation |
| Grabber.OnTriggerEnter | Assets/NRSDK/Scripts/Input/Hands/NRGrabber/NRGrabber.cs:76-89 | the first contact makes an object ready with count 1 and each further contact adds one, no other object's count changes, counts stay positive, and a collider without a grabbable object is ignored |
| Grabber.OnTriggerExit | Assets/NRSDK/Scripts/Input/Hands/NRGrabber/NRGrabber.cs:93-110 | the last contact removes the object from the ready set, an earlier one lowers its count by one, no other object's count changes, and an unknown or missing object is ignored |
| Grabber.EnterThenExitRestoresCounts | Assets/NRSDK/Scripts/Input/Hands/NRGrabber/NRGrabber.cs:76-110 | a contact that enters and leaves again leaves the ready dictionary exactly as it was |
| Grabber.GrabTarget | Assets/NRSDK/Scripts/Input/Hands/NRGrabber/NRGrabber.cs:195-211 | a grabbable target joins the grabbing list once, keeps any earlier start offset, stops being ready and is told GrabBegin; any other target changes nothing |
| Grabber.GrabAll | Assets/NRSDK/Scripts/Input/Hands/NRGrabber/NRGrabber.cs:147-211 | the multi-grab loop grabs exactly the queued objects that can be grabbed, adds no duplicate, and keeps every count positive |
| Grabber.ReleaseAll | Assets/NRSDK/Scripts/Input/Hands/NRGrabber/NRGrabber.cs:256-266 | releasing tells every held object GrabEnd in grab order, empties the ready set, the grabbing list and the offsets, and turns the grabber's colliders back on |
| Grabber.GrabEnds | Assets/NRSDK/Scripts/Input/Hands/NRGrabber/NRGrabber.cs:258-261 | one GrabEnd per held object, in order |
| Grabber.Moves | Assets/NRSDK/Scripts/Input/Hands/NRGrabber/NRGrabber.cs:214-240 | one move per held object, in order |
| Grabber.UpdateGrabbles | Assets/NRSDK/Scripts/Input/Hands/NRGrabber/NRGrabber.cs:121-167 | a falling edge releases everything; a grab starts only on a rising edge with nothing held and something ready, turning the colliders off and taking the nearest grabbable object, or every grabbable ready object when multi-grab is on; otherwise held objects follow the grabber except in the update that pressed |
| Grabber.PressThenReleaseLetsGo | Assets/NRSDK/Scripts/Input/Hands/NRGrabber/NRGrabber.cs:121-266 | pressing grabs the nearest ready object with one GrabBegin, and releasing in the next update lets it go with one GrabEnd, leaving nothing held or ready |
| Polygon.FanTriangle | Assets/NRSDK/Demos/HelloMR/Scripts/PolygonPlaneVisualizer.cs:135-146 | triangle i of the fan joins the center with boundary point i+1 and the next one, wrapping to point 1 after the last |
| Polygon.GenerateTriangles | Assets/NRSDK/Demos/HelloMR/Scripts/PolygonPlaneVisualizer.cs:130-149 | the index list holds three indices per boundary point and its i-th triple is the i-th fan triangle |
| Polygon.FanIndicesInRange | Assets/NRSDK/Demos/HelloMR/Scripts/PolygonPlaneVisualizer.cs:91-149 | every index of the fan names the center or a boundary point, and every triangle starts at the center |
| Polygon.FanCoversBoundary | Assets/NRSDK/Demos/HelloMR/Scripts/PolygonPlaneVisualizer.cs:130-149 | every boundary point is used by the fan |
| Polygon.DrawFromCenter | Assets/NRSDK/Demos/HelloMR/Scripts/PolygonPlaneVisualizer.cs:84-105 | fewer than three boundary points draw nothing; otherwise the mesh has one vertex more than the boundary and every triangle index is one of its vertices |
| MeshLabels.RemoveDuplicateLabels | Assets/NRSDK/Demos/Meshing/Scripts/MeshClassificationFracking.cs:268-285 | the result holds each valid label of the triangle exactly once and never the refused ordinals 3 and 9 |
| MeshLabels.AddLabels | Assets/NRSDK/Demos/Meshing/Scripts/MeshClassificationFracking.cs:270-283 | the hash-set loop keeps what it had as a prefix, adds no duplicate, and ends with exactly the earlier labels plus the valid ones seen |
| MeshLabels.CountMonotone | Assets/NRSDK/Demos/Meshing/Scripts/MeshClassificationFracking.cs:242-263 | counting a label over a longer prefix never gives less |
| MeshLabels.SelectMostMatchingLabel | Assets/NRSDK/Demos/Meshing/Scripts/MeshClassificationFracking.cs:236-265 | an empty label array throws; otherwise the selected label occurs in the array, no label occurs more often, and it is the first label to reach that count |
| MeshLabels.CountAbsent | Assets/NRSDK/Demos/Meshing/Scripts/MeshClassificationFracking.cs:245-253 | a label that does not occur has count zero |
| MeshLabels.VertexLabels | Assets/NRSDK/Demos/Meshing/Scripts/MeshClassificationFracking.cs:184-192 | the three labels read for a triangle are those of its three vertices, in order |
| MeshLabels.AppendToLabels | Assets/NRSDK/Demos/Meshing/Scripts/MeshClassificationFracking.cs:197-211 | the triangle is appended once to the list of each selected label that has a list, other lists are unchanged, and a label without a list is skipped |
| MeshLabels.Classify | Assets/NRSDK/Demos/Meshing/Scripts/MeshClassificationFracking.cs:182-212 | the triangle loop fails exactly when some vertex index lies outside the label array, and otherwise keeps the set of labels with lists |
| MeshLabels.ClassifyIsReference | Assets/NRSDK/Demos/Meshing/Scripts/MeshClassificationFracking.cs:182-212 | each label's list gains exactly the triangles having a vertex with that valid label, in triangle order |
| MeshLabels.EmptyLists | Assets/NRSDK/Demos/Meshing/Scripts/MeshClassificationFracking.cs:172-179 | fresh empty lists are made for exactly the available labels, and a label listed twice throws |
| MeshLabels.ExtractClassified | Assets/NRSDK/Demos/Meshing/Scripts/MeshClassificationFracking.cs:164-233 | extraction succeeds exactly when the available labels are distinct and every vertex index is in range, with one list per available label |
| MeshLabels.ExtractClassifiedIsReference | Assets/NRSDK/Demos/Meshing/Scripts/MeshClassificationFracking.cs:164-233 | on such a block every available label's list is exactly the triangles having a vertex with that label |
| MeshLabels.EmptyMeshes | Assets/NRSDK/Demos/Meshing/Scripts/MeshClassificationFracking.cs:125-135 | a block seen for the first time gets one empty mesh per available label |
| MeshLabels.HandleDeletedBlock | Assets/NRSDK/Demos/Meshing/Scripts/MeshClassificationFracking.cs:89-107 | deleting a block drops only that block's filters and keeps every other block and every cached mesh |
| MeshLabels.NewFilters | Assets/NRSDK/Demos/Meshing/Scripts/MeshClassificationFracking.cs:114-123 | a block seen for the first time gets one filter entry per prefab label, holding an instance exactly when that prefab has a mesh filter and null otherwise |
| MeshLabels.HandleUpdateBlock | Assets/NRSDK/Demos/Meshing/Scripts/MeshClassificationFracking.cs:109-158 | an update succeeds exactly when the prefab labels are distinct, every vertex index is in range and no available label has a null filter in the block's dictionary, and then sets each label's mesh to exactly its classified triangles; a null filter throws a null reference after the meshes were set; duplicate labels throw with nothing changed; a bad index throws after the block's filters and meshes were registered, with its earlier meshes (or fresh empty ones) kept; no other block is touched |
| MeshLabels.UpdateMeshInfo | Assets/NRSDK/Demos/Meshing/Scripts/MeshClassificationFracking.cs:59-87 | new and updated blocks are classified, passing on the exception of a failed update together with the state the update left, deleted ones are dropped, and unchanged ones are left alone |
| MeshLabels.ClearMeshInfo | Assets/NRSDK/Demos/Meshing/Scripts/MeshClassificationFracking.cs:48-57 | clearing deletes the filters of every block and keeps the cached meshes |
| MeshLabels.DeleteThenUpdate | Assets/NRSDK/Demos/Meshing/Scripts/MeshClassificationFracking.cs:89-123 | deleting a block twice is deleting it once, and a deleted block that is updated again gets its prefab filters back, even when the update then throws |
| MeshLabels.RetryAfterFailure | Assets/NRSDK/Demos/Meshing/Scripts/MeshClassificationFracking.cs:109-158 | an update that throws on a bad vertex index leaves the block registered, and retrying it with good data ends exactly as the good update alone would |
| MeshLabels.NullFilterThrowsAfterExtraction | Assets/NRSDK/Demos/Meshing/Scripts/MeshClassificationFracking.cs:114-155 | on a first update with distinct labels and good indices, the null reference is thrown exactly when some prefab lacks a mesh filter, and either way the block is registered and every label's mesh holds its classified triangles |
| TrackingTips.HighestBit | Assets/NRSDK/Demos/HelloMR/Scripts/TrackingInfomationTips.cs:130-140 | the layer found for a positive mask is the exponent of the power of two that brackets it |
| TrackingTips.HighestBitOfPow2 | Assets/NRSDK/Demos/HelloMR/Scripts/TrackingInfomationTips.cs:130-140 | a mask naming a single layer gives back exactly that layer |
| TrackingTips.LayerMaskToLayer | Assets/NRSDK/Demos/HelloMR/Scripts/TrackingInfomationTips.cs:130-140 | the shift loop returns -1 for an empty or negative mask and otherwise the highest set layer, at most 30 for a 32-bit mask |
| TrackingTips.LayerFound | Assets/NRSDK/Demos/HelloMR/Scripts/TrackingInfomationTips.cs:130-140 | the exponent that brackets a positive mask is the layer the loop finds, and a 32-bit mask's is at most 30 |
| TrackingTips.UniqueHighestBit | Assets/NRSDK/Demos/HelloMR/Scripts/TrackingInfomationTips.cs:130-140 | only one exponent brackets a positive number |
| TrackingTips.TipMask | Assets/NRSDK/Demos/HelloMR/Scripts/TrackingInfomationTips.cs:110-111 | the culling mask the tip is shown with is a 32-bit value |
| TrackingTips.SingleLayerTipMask | Assets/NRSDK/Demos/HelloMR/Scripts/TrackingInfomationTips.cs:93-111 | with a tips layer mask naming one layer, the cameras see exactly that layer |
| TrackingTips.EmptyTipsLayerShowsLayer31 | Assets/NRSDK/Demos/HelloMR/Scripts/TrackingInfomationTips.cs:93-111 | an empty tips layer gives layer -1, and the shift by -1 sets the cameras' mask to int.MinValue |
| TrackingTips.ShowTips | Assets/NRSDK/Demos/HelloMR/Scripts/TrackingInfomationTips.cs:85-125 | showing a tip instantiates it if needed, makes it current and restricts both cameras to the tips layer; None hides the current tip and restores the original masks |
| TrackingTips.Start | Assets/NRSDK/Demos/HelloMR/Scripts/TrackingInfomationTips.cs:47-53 | the start remembers both cameras' masks and shows the uninitialised tip as the only active one |
| TrackingTips.ShowTipsKeepsValid | Assets/NRSDK/Demos/HelloMR/Scripts/TrackingInfomationTips.cs:85-125 | after showing any tip, exactly the current tip is active and it has been instantiated |
| TrackingTips.LostThenReadyRestores | Assets/NRSDK/Demos/HelloMR/Scripts/TrackingInfomationTips.cs:70-125 | losing tracking and then getting the pose back leaves no tip showing and both cameras with their original masks |
| Debugger.DefaultLog | Assets/NRSDK/Scripts/NRDebugger.cs:49-70 | the default helper prefixes the level name in brackets; debug and info go to the console's log and warning and error to their own calls, and exactly the other levels throw with the same text |
| Debugger.SetLogHelper | Assets/NRSDK/Scripts/NRDebugger.cs:89-92 | installing a helper keeps the configured level |
| Debugger.Log | Assets/NRSDK/Scripts/NRDebugger.cs:96-585 | a message is dropped when no helper is installed, when it is a debug message outside a debug build, or when its level is below the configured one; otherwise it reaches the helper, and a custom helper receives the level and message unchanged |
| Debugger.OffSilences | Assets/NRSDK/Scripts/NRDebugger.cs:15-585 | at level Off no logging method produces anything |
| Debugger.LowerLevelLogsMore | Assets/NRSDK/Scripts/NRDebugger.cs:96-585 | lowering the configured level never silences or alters a message that was logged before |
| Debugger.DefaultHelperThrowsOnFatal | Assets/NRSDK/Scripts/NRDebugger.cs:49-501 | with the default helper a fatal message that passes the level throws instead of reaching the console |
| Debugger.InitialLevels | Assets/NRSDK/Scripts/NRDebugger.cs:75-585 | from the initial state every level except debug is logged |
| Notifications.PowerStateOf | Assets/NRSDK/Scripts/NRNotificationListener.cs:97-108 | the battery is low exactly below 0.3, middle exactly from 0.3 to below 0.4, and full from 0.4 up |
| Notifications.UpdatePowerState | Assets/NRSDK/Scripts/NRNotificationListener.cs:111-131 | the new power state is remembered; a notification is triggered only on a change into low (at High) or into middle (at Middle), never on a return to full |
| Notifications.PowerTriggersOncePerBand | Assets/NRSDK/Scripts/NRNotificationListener.cs:111-131 | two readings in the same band trigger at most once |
| Notifications.OnHMDLostTracking | Assets/NRSDK/Scripts/NRNotificationListener.cs:176-184 | losing tracking triggers at Middle exactly when tracking was not already lost, and the state becomes lost |
| Notifications.OnHMDPoseReady | Assets/NRSDK/Scripts/NRNotificationListener.cs:169-173 | getting the pose back records the ready state and triggers nothing |
| Notifications.LostTrackingNotifiesOnEntry | Assets/NRSDK/Scripts/NRNotificationListener.cs:169-184 | losing tracking twice in a row notifies once, and losing it again after the pose is back notifies again |
| Notifications.OnSessionError | Assets/NRSDK/Scripts/NRNotificationListener.cs:201-212 | a native error triggers at High exactly for the camera-not-found, permission-denied and unsupported-hand-tracking errors |
| Notifications.ErrorTitle | Assets/NRSDK/Scripts/NRNotificationListener.cs:214-235 | those three errors have their fixed titles and any other error is titled by its type name |
| Notifications.ErrorContent | Assets/NRSDK/Scripts/NRNotificationListener.cs:237-254 | the camera and hand-tracking errors show their fixed tips and every other error, permission errors included, shows its own message |
| Notifications.TipsHalfSeconds | Assets/NRSDK/Scripts/NRNotificationListener.cs:275-279 | only Low, Middle and High have a display time, each an odd number of half seconds between 1.5 s and 3.5 s |
| Notifications.HigherLevelsLockLonger | Assets/NRSDK/Scripts/NRNotificationListener.cs:275-279 | a higher level holds the queue strictly longer |
| Notifications.BindNotificationWindow | Assets/NRSDK/Scripts/NRNotificationListener.cs:329-337 | a notification is bound to a window once; binding it again keeps the first window |
| Notifications.ClearAll | Assets/NRSDK/Scripts/NRNotificationListener.cs:342-345 | clearing sets the level to Off and keeps the queue and the bindings |
| Notifications.ClearAllDropsHigh | Assets/NRSDK/Scripts/NRNotificationListener.cs:342-406 | after clearing, even a High message is not queued |
| Notifications.Dispatch | Assets/NRSDK/Scripts/NRNotificationListener.cs:396-406 | a message is queued at the back exactly when its level is at least the listener's level |
| Notifications.DispatchAll | Assets/NRSDK/Scripts/NRNotificationListener.cs:373-406 | dispatching a sequence keeps the earlier queue as a prefix and changes nothing but the queue |
| Notifications.Accepted | Assets/NRSDK/Scripts/NRNotificationListener.cs:398 | the accepted messages all come from the input and pass the listener's level |
| Notifications.DispatchAllQueuesAccepted | Assets/NRSDK/Scripts/NRNotificationListener.cs:396-406 | dispatching a sequence appends exactly the accepted messages, in order, behind those already queued |
| Notifications.OperateNotificationMsg | Assets/NRSDK/Scripts/NRNotificationListener.cs:410-463 | showing a message fails for an unbound notification or a level without a display time; with a prefab the window shows the message's level, and exactly a High low-power message stays until confirmed and quits the app on confirm |
| Notifications.Update | Assets/NRSDK/Scripts/NRNotificationListener.cs:347-391 | under one second since the last update nothing happens; otherwise the triggered messages are queued, and either the running lock loses one second or, with the lock expired, the oldest queued message is dequeued, shown and locks the queue for its level's time; showing fails exactly when that message's notification is unbound or its level has no time, and then the listener keeps the message dequeued and the lock expired |
| Notifications.UpdateIsFifo | Assets/NRSDK/Scripts/NRNotificationListener.cs:378-406 | an update that shows a message takes the oldest one and keeps the rest in order, followed by the newly accepted ones |
| Notifications.ShownMessageLocks | Assets/NRSDK/Scripts/NRNotificationListener.cs:378-391 | the update after a message is shown shows nothing, whatever time passes and whatever is triggered |
| SessionConfigs.EqualsAsWritten | Assets/NRSDK/Scripts/NRSessionConfig.cs:91-110 | comparing with null is false, comparing with a config compares plane mode, image mode, database and project config, and comparing with an object of another type throws |
| SessionConfigs.EqualsOtherTypeThrows | Assets/NRSDK/Scripts/NRSessionConfig.cs:93-99 | an argument of another type passes the null test on the uncast argument and is then dereferenced through the null cast |
| SessionConfigs.Equals | Assets/NRSDK/Scripts/NRSessionConfig.cs:91-110 | null and objects of other types are unequal, and two configs are equal exactly when plane mode, image mode, database and project config agree |
| SessionConfigs.EqualsAgreesWhereDefined | Assets/NRSDK/Scripts/NRSessionConfig.cs:91-110 | the corrected comparison gives the code's answer on every argument where the code does not throw, and the code throws exactly for other types |
| SessionConfigs.EqualsIsEquivalence | Assets/NRSDK/Scripts/NRSessionConfig.cs:91-110 | config equality is reflexive, symmetric and transitive |
| SessionConfigs.EqualsIgnoresPresentation | Assets/NRSDK/Scripts/NRSessionConfig.cs:91-110 | the notification, force-kill, prompt and threading fields do not affect equality |
| SessionConfigs.CopyFrom | Assets/NRSDK/Scripts/NRSessionConfig.cs:121-134 | copying takes every serialized field from the other config except the multi-thread flag, which is kept |
| SessionConfigs.CopyFromThenEquals | Assets/NRSDK/Scripts/NRSessionConfig.cs:91-134 | a config copied from another one equals it, under both the written and the corrected comparison |
| SessionConfigs.IsTargetDevice | Assets/NRSDK/Scripts/NRSessionConfig.cs:136-139 | without a project config no device is a target; with one, exactly the devices it lists are |
| SessionConfigs.SupportMultiResume | Assets/NRSDK/Scripts/NRSessionConfig.cs:79-85 | reading the flag throws exactly when there is no project config and otherwise returns the project's flag |
| NativeConfig.PlaneModeValueOf | Assets/NRSDK/Scripts/Interfaces/Wrappers/NativeConfiguration.cs:189-205 | disable, horizontal and vertical are sent as themselves, exactly BOTH becomes the union of horizontal and vertical, and any other value disables |
| NativeConfig.PlaneModeValueIsNamed | Assets/NRSDK/Scripts/Interfaces/Wrappers/NativeConfiguration.cs:189-205 | the value sent to the native side always names one of the supported plane modes |
| NativeConfig.NewConfiguration | Assets/NRSDK/Scripts/Interfaces/Wrappers/NativeConfiguration.cs:46-53 | a new wrapper has no config handle, is unlocked, knows no database and remembers a default config |
| NativeConfig.UpdatePlaneFindMode | Assets/NRSDK/Scripts/Interfaces/Wrappers/NativeConfiguration.cs:103-113 | the plane mode is set, mapped and under the config handle, exactly when the native side currently has a different one |
| NativeConfig.UpdateImageTrackingConfig | Assets/NRSDK/Scripts/Interfaces/Wrappers/NativeConfiguration.cs:118-153 | disabling detaches the database and forgets the known databases only when that succeeds; enabling with a database creates it once per GUID, reuses a known one, and ends by loading it and attaching it; enabling without a database or any other mode does nothing |
| NativeConfig.UpdateConfig | Assets/NRSDK/Scripts/Interfaces/Wrappers/NativeConfiguration.cs:73-98 | an update is refused while locked; otherwise the config handle is created if missing, the update succeeds exactly when the handle is nonzero and the config differs from the last one applied, a refused update makes no native call, a successful one remembers a config equal to the new one, and the lock always ends released |
| NativeConfig.UpdateConfigTwice | Assets/NRSDK/Scripts/Interfaces/Wrappers/NativeConfiguration.cs:73-98 | applying the same config a second time is refused and makes no native call |
| NativeConfig.UpdateConfigHandle | Assets/NRSDK/Scripts/Interfaces/Wrappers/NativeConfiguration.cs:55-68 | a perception-handle change without a config handle does nothing; with one it creates a new handle, sets the remembered plane mode on it first and ends with the lock released |
| NativeConfig.FeatureCall | Assets/NRSDK/Scripts/Interfaces/Wrappers/NativeConfiguration.cs:233-284 | the feature queries and the anchor and meshing setters answer false when either handle is 0 and the native answer otherwise |
| NativeConfig.SetHandTrackingEnabled | Assets/NRSDK/Scripts/Interfaces/Wrappers/NativeConfiguration.cs:286-294 | enabling hand tracking answers false when either handle is 0 and otherwise the requested value |
| NativeConfig.HandTrackingIgnoresNativeResult | Assets/NRSDK/Scripts/Interfaces/Wrappers/NativeConfiguration.cs:244-294 | unlike the other setters, enabling hand tracking reports success even when the native call fails |
| InfoLog.DropOverflow | Assets/NRSDK/Demos/Input/Scripts/ControllerInfoDisplayUI.cs:151-153 | a log past the 20-line cap loses exactly its oldest line, and one within the cap is kept whole |
| InfoLog.AddExtraInfo | Assets/NRSDK/Demos/Input/Scripts/ControllerInfoDisplayUI.cs:143-154 | an empty message leaves the log unchanged and any other message leaves it non-empty |
| InfoLog.CutFirstLine | Assets/NRSDK/Demos/Input/Scripts/ControllerInfoDisplayUI.cs:153 | a log of several lines has a first newline, and cutting through it leaves exactly the later lines |
| InfoLog.AddExtraInfoLines | Assets/NRSDK/Demos/Input/Scripts/ControllerInfoDisplayUI.cs:143-154 | adding a message appends its lines after the log's and drops the oldest line when the cap is exceeded, keeping the order of the rest |
| InfoLog.SingleLine | Assets/NRSDK/Demos/Input/Scripts/ControllerInfoDisplayUI.cs:151 | a message without a newline is a single line |
| InfoLog.AddExtraInfoBounded | Assets/NRSDK/Demos/Input/Scripts/ControllerInfoDisplayUI.cs:27-154 | with one-line messages the log never exceeds 20 lines and the newest message is its last line |
| InfoLog.MultiLineMessageOverflows | Assets/NRSDK/Demos/Input/Scripts/ControllerInfoDisplayUI.cs:151-153 | a message of more than 21 lines leaves the log over the cap, since only one line is dropped per message |
| Gallery.WriteStreamToOutput | Assets/NRSDK/Demos/RGBCamera/Scripts/GalleryDataProvider.java:176-192 | the copy writes a prefix of the stream in reads of 1 to 4096 bytes whose sizes add up to what was written, so the output is at most 4096 bytes per read; a completed copy writes the whole stream in exactly the reads of the uninterrupted copy, and an I/O failure at read k leaves exactly the first k of those reads (all of them if the stream ended first) |
| Gallery.ReadLength | Assets/NRSDK/Demos/RGBCamera/Scripts/GalleryDataProvider.java:178-181 | a read fills at least one byte and at most the 4096-byte buffer and what is left of the stream |
| Gallery.ReadsBounded | Assets/NRSDK/Demos/RGBCamera/Scripts/GalleryDataProvider.java:178-183 | every read of an uninterrupted copy is between 1 and 4096 bytes |
| Gallery.ReadsStep | Assets/NRSDK/Demos/RGBCamera/Scripts/GalleryDataProvider.java:181-183 | one more read moves its size from the reads still to come to those done |
| Gallery.CopyEnd | Assets/NRSDK/Demos/RGBCamera/Scripts/GalleryDataProvider.java:176-192 | where the loop stops, at the end of the stream or at the failing read, the reads done are all of the uninterrupted copy's or its first k |
| Gallery.Sum | Assets/NRSDK/Demos/RGBCamera/Scripts/GalleryDataProvider.java:181-183 | the total written is at least the first read |
| Gallery.SumAppend | Assets/NRSDK/Demos/RGBCamera/Scripts/GalleryDataProvider.java:181-183 | each read adds its size to the total written |
| Gallery.ChunksCoverData | Assets/NRSDK/Demos/RGBCamera/Scripts/GalleryDataProvider.java:178-183 | no read exceeds the buffer, so a copy takes at least one read per 4096 bytes |
| Gallery.ImageValues | Assets/NRSDK/Demos/RGBCamera/Scripts/GalleryDataProvider.java:36-110 | an image insert carries the name and type, the add and modify time in whole seconds of the clock, and exactly from Android Q on also the time taken and the path under Pictures |
| Gallery.VideoValues | Assets/NRSDK/Demos/RGBCamera/Scripts/GalleryDataProvider.java:134-138 | a video insert carries the name, the type and the path under Movies on every version, and no dates |
| Gallery.InsertFromStream | Assets/NRSDK/Demos/RGBCamera/Scripts/GalleryDataProvider.java:63-153 | when the store gives no entry nothing is copied and null is returned; otherwise the stream is copied into the entry, which is returned |
| Gallery.InsertUnchecked | Assets/NRSDK/Demos/RGBCamera/Scripts/GalleryDataProvider.java:34-60 | the bitmap insert does not test the entry, so a missing one throws when its output stream is opened; an entry that exists is written and returned |
| Gallery.InsertImageFromPath | Assets/NRSDK/Demos/RGBCamera/Scripts/GalleryDataProvider.java:93-123 | the entry always carries the image columns of the caller's name and folder, the probed type, the clock and the platform version; a missing image file ends the copy quietly and the entry, possibly null, is returned; with the file present a missing entry throws, and a present one is returned with the content copied |
| Gallery.InsertVideoFromPath | Assets/NRSDK/Demos/RGBCamera/Scripts/GalleryDataProvider.java:161-172 | a missing video file gives null without touching the store; otherwise the entry carries the video columns of the caller's name and folder typed video/mp4, the store's entry is returned, and content is copied exactly when there is an entry |
| Gallery.PathInsertColumns | Assets/NRSDK/Demos/RGBCamera/Scripts/GalleryDataProvider.java:93-172 | for all inputs, the image path insert keeps the name and probed type and sets the Pictures path exactly from Android Q, and the video path insert keeps the name, types it video/mp4 and puts it under Movies |
| Gallery.RelativePathRules | Assets/NRSDK/Demos/RGBCamera/Scripts/GalleryDataProvider.java:43-138 | the video path is set on every version, the image path only from Android Q |
| Device.Create | Assets/NRSDK/Scripts/Subsystems/Device/NRDeviceSubsystem.cs:103-144 | a construction whose native creation throws is remembered as failed; the plug-out and reset latches and the brightness maximum are static, so a new subsystem starts from whatever values they hold |
| Device.SecondInstanceSharesStatics | Assets/NRSDK/Scripts/Subsystems/Device/NRDeviceSubsystem.cs:103-160 | a subsystem created after another one started keeps the maximum that start read from the glasses, and shares its plug-out latch |
| Device.FailedInitNeverAvailable | Assets/NRSDK/Scripts/Subsystems/Device/NRDeviceSubsystem.cs:92-141 | a subsystem whose construction threw is never available, whether or not it runs |
| Device.Start | Assets/NRSDK/Scripts/Subsystems/Device/NRDeviceSubsystem.cs:156-160 | after start the highest brightness is one below the level count the glasses report, and a failed query keeps the previous maximum |
| Device.BrightnessRange | Assets/NRSDK/Scripts/Subsystems/Device/NRDeviceSubsystem.cs:103-160 | glasses reporting n levels give exactly n brightness values from the minimum 0 |
| Device.OnGlassesDisconnect | Assets/NRSDK/Scripts/Subsystems/Device/NRDeviceSubsystem.cs:194-202 | the disconnect event is raised only by the first disconnect, which makes the device unavailable |
| Device.DisconnectLatches | Assets/NRSDK/Scripts/Subsystems/Device/NRDeviceSubsystem.cs:196-201 | a second disconnect raises no event and changes nothing |
| Device.ResetStateOnNextResume | Assets/NRSDK/Scripts/Subsystems/Device/NRDeviceSubsystem.cs:217-220 | asking for a reset does not itself reconnect the glasses |
| Device.Resume | Assets/NRSDK/Scripts/Subsystems/Device/NRDeviceSubsystem.cs:256-264 | a resume clears the plug-out latch only when a reset was asked for, and consumes that request |
| Device.UnplugThenResetResume | Assets/NRSDK/Scripts/Subsystems/Device/NRDeviceSubsystem.cs:92-264 | after a disconnect the running device becomes available again exactly through a resume that was asked to reset |
| Device.Destroy | Assets/NRSDK/Scripts/Subsystems/Device/NRDeviceSubsystem.cs:283-303 | destroying clears the plug-out latch but keeps a pending reset |
| Device.Query | Assets/NRSDK/Scripts/Subsystems/Device/NRDeviceSubsystem.cs:310-466 | every device query answers from the native side exactly when the device is available and throws the not-available error otherwise |
| Device.GetBrightness | Assets/NRSDK/Scripts/Subsystems/Device/NRDeviceSubsystem.cs:501-512 | the brightness reads as -1 when the device is unavailable or the native read fails, and as the native value otherwise |
| Device.SetBrightness | Assets/NRSDK/Scripts/Subsystems/Device/NRDeviceSubsystem.cs:519-533 | a brightness is handed to the native side, unchanged, exactly when the device is available |
| HandStates.Reset | Assets/NRSDK/Scripts/Input/Hands/HandState.cs:94-101 | a reset hand is untracked with an invalid identity pointer pose, no gesture and no joints, and keeps which hand it is |
| HandStates.NewHandState | Assets/NRSDK/Scripts/Input/Hands/HandState.cs:87-91 | a new hand state is for the given hand and is already in its reset state |
| HandStates.ResetIdempotent | Assets/NRSDK/Scripts/Input/Hands/HandState.cs:94-101 | resetting twice is the same as resetting once |
| HandStates.GetJointPose | Assets/NRSDK/Scripts/Input/Hands/HandState.cs:108-113 | a tracked joint reports its recorded pose; an untracked one reports the all-zero pose rather than the identity the method starts from |
| HandStates.ResetHandHasNoJoints | Assets/NRSDK/Scripts/Input/Hands/HandState.cs:74-113 | a reset hand is not pinching and reports the all-zero pose for every joint |

## Left out

- Native P/Invoke wrappers, rendering, capture pipelines, the Unity engine and Android: these are foreign calls. Their results are parameters, and the calls an operation makes are part of its result where the order matters.
- Threads, coroutines, the main-thread dispatcher and the background executor: each queued action is modelled as running in the order it was queued.
- File, zip and XML I/O: `NativeConfiguration.DeployData` (unzipping the image database), `GetTrackableImageDataBase` and `Destroy` are foreign calls and are not modelled.
- Float arithmetic is exact real arithmetic. Rounding, NaN and infinities are not modelled. This affects the pose maths, the touch thresholds, the audio sample scaling and the profiler averages.
- AudioRing.SampleToInt16: the float product is taken as exact, so float rounding of the product is not modelled. In range, the model truncates toward zero as the cast does. Out of range, C# leaves the result of an unchecked float-to-`short` conversion unspecified. The model's 16-bit wrap of the truncated value is one admissible outcome, not the only one; the contract promises only that the result is a 16-bit value.
- PhoneScreen: the touch coordinates cross the wire as the bit patterns of 32-bit floats. The model keeps them as those integer bit patterns and does not reinterpret them as floats.
- SwapChain.AddLayer: `List.Sort` is not stable, and the model places a new overlay after those of equal depth. That is one order the sort may produce.
- Dictionary enumeration follows insertion order wherever the code enumerates a dictionary. This covers the Gradle patchers, the trackable dictionaries and the grab-ready objects.
- WorldAnchors: the anchor and mapping states are symbolic, because their numeric values are not part of this model. `UpdateMapQuality`, `UpdateAnchorState`, `SetEstimateRange`, `GetEstimateRange` and `UpdatePose` only forward native answers and are not modelled. `SaveAllAnchors` and `EraseAllAnchors` are loops of the modelled single-anchor calls and are not modelled either.
- WorldAnchors.OnUpdate: models the device build; the editor build returns before the refresh. Moving a tracked anchor to its native pose is engine work and is not modelled, and neither are the native list's creation and release.
- WorldAnchors.DestroyAnchor: the native destroy runs on a worker thread and the game object is destroyed by the engine; neither is modelled, and the anchor object keeps its fields.
- NativeConfig: the plane and image tracking modes are symbolic.
- Trackables: `CreateAnchor`, `GetBoundaryPolygon` and `GetPlaneType` forward to native calls and are not modelled.
- Grabber: `GetNearestGrabbleObject`'s distance search is a parameter; the object it picks is an input.
- MeshLabels.ExtractClassified: the triangle count is `Count / 3`, so trailing indices that do not fill a triangle are dropped, as in the code.
- HandStates.IsPinching: the editor also counts the left mouse button, which is not modelled.
- Geometry.Conjugate: `Quaternion.Inverse` is a native engine call. The model uses the conjugate, which is the inverse of a unit quaternion; for quaternions of other lengths Unity's result is not modelled.
- HMDTracker.ChangeMode: the editor path, which changes mode without the native tracker, is not modelled.
- Session.StartSession: with no configuration the target-device check is skipped, as in the code. Reading the configuration asset is not modelled.
- KernalErrors.Check: the text logged for an unmapped result (the tag followed by the result's enum name) is not modelled; only the fact that it is logged, the exception raised and its message are. The module's type name and the function name are parameters.
- CameraView.NewViewWithFormat: the format value is not kept on the view or the proxy; only whether the provider accepted it is. The proxy the factory returns is an input, because the factory's cache is not part of this model.
- EncodeConfig.NewCameraParameters: the media projection object is not modelled.
- StringUtility.Format: the overloads with one, two, three and many arguments are one function. Alignment and format specifiers inside a placeholder are not interpreted; such a format yields a "not modelled" outcome instead of a result.
- Permissions.ToString: `Environment.NewLine` is taken as "\n", its value on Android, where the permission request runs.
- VideoCapture.SupportedResolutions: `width * 3 / 2` is computed without 32-bit wrap-around. The C# product overflows only for widths above 715 827 882, far beyond any camera.
- Strings.IndexOf: the search is ordinal, character by character, as are `Contains` and `Replace`. `string.IndexOf(string)` compares with the current culture by default; the model takes that to agree with ordinal comparison on the ASCII build-file text it searches.
- StringUtility.GetByteLengthString: the conversion of the size to `float`, the float division and the "F2" two-decimal rendering are not modelled; the value is the exact real quotient. Rounding can make the shown number reach 1024, as with 1 048 575 bytes shown as "1024.00 KB".
- VisualProfiler: the window, its graphs and the frame-rate text are rendering and are not modelled. Its integer rendering, megabyte conversion and clamped settings are modelled.
- Notifications.ErrorTitle: the type name used for an unknown error is a parameter, because it comes from reflection.
- Notifications.TipsHalfSeconds: lock durations are kept in half seconds, so that every duration in the code is an integer.
- Gallery: the content resolver, the clock and the platform version are parameters. Bitmap compression and the image decoder's MIME probe are inputs. The output stream of the path insert is not closed in the code, and stream closing is not modelled.
- Device: whether the subsystem is running is kept by its Unity base class and is an input.
- Debugger: the Unity console is not modelled. The default helper's result names the console call it makes.
- Unity `Assert` calls and the localisation generator are not part of this model.
- The editor setters of `NRSessionConfig` and `GetTargetDeviceTypesDesc` only concern the inspector and are not modelled.
- The Gradle template patcher works on lines. Its Gradle-specific quirks beyond line matching are not modelled.
- The thermal listener of the Java layer is not part of this model.

## Findings

| source | as written | input that shows it | evidently intended | confidence | as-written member | corrected member |
|---|---|---|---|---|---|---|
| Assets/NRSDK/Scripts/Capture/Encoder/AudioRecordTool.cs:73-93 | the mono conversion reads `dataSource[i*2]` whatever the channel count | one channel and at least two samples: the last iterations index past the end of the array | read the first channel of frame `i`, `dataSource[i*channels]` | not executed | AudioRing.MonoConversionThrows | AudioRing.ConvertFirstChannelSamples |
| Assets/NRSDK/Scripts/Camera/Proxy/NativeCameraProxy.cs:370-387 | `Release` clears the playing flag but not the paused flag | Play, Pause, Stop, Play: the proxy plays but is still flagged paused, so the next `Pause` does nothing | release clears the paused flag too | not executed | CameraProxy.PauseLostAfterRestart | CameraProxy.PauseWorksAfterFixedRestart |
| Assets/NRSDK/Scripts/Utility/NRTools.cs:81 | each field is padded with "0" unless it is `> 10` | 10 000 ms renders as "00:00:010" | pad only values below 10 (`>= 10`) | not executed | NRTools.TenSecondsRenderAsThreeDigits | NRTools.TimeRoundTrip |
| Assets/NRSDK/Scripts/NRSessionConfig.cs:93-99 | the null test is on the uncast argument, and the cast result is then dereferenced | `Equals` with any non-null object that is not a session config throws a null-reference exception | test the cast result and return false | not executed | SessionConfigs.EqualsOtherTypeThrows | SessionConfigs.EqualsAgreesWhereDefined |
