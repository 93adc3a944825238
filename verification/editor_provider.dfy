/** `EditorControllerProvider`: the controller emulated in the Unity editor.
    Scripts set its touch, button and rotation inputs through static setters;
    each update copies them into controller state 0 and derives the button
    edges from the state's previous button mask. */
module EditorProvider {
  import ControllerInput
  import ControllerParsers
  import Geometry

  /** The editor emulates exactly one controller. */
  const ControllerCount: int := 1

  /** The static inputs: touch position, touching flag, the three button
      values (1 pressed, 0 released), the reported rotation, the last raw
      rotation set (`originRotation`) and the correction a recenter fixed
      (`resetRotation`). */
  datatype Inputs = Inputs(touchPos: Geometry.Vec2, isTouching: bool, buttonState: seq<int>, rotation: Geometry.Quat,
                           originRotation: Geometry.Quat, resetRotation: Geometry.Quat)

  predicate ValidInputs(i: Inputs) {
    |i.buttonState| == 3
  }

  function NewInputs(): (i: Inputs)
    ensures ValidInputs(i) && forall k :: 0 <= k < 3 ==> i.buttonState[k] == 0
  {
    Inputs(Geometry.Zero2, false, [0, 0, 0], Geometry.IdentityQuat, Geometry.IdentityQuat, Geometry.IdentityQuat)
  }

  /** `SetControllerRotation`: remembers the raw rotation and reports it
      corrected by the last recenter. */
  function SetControllerRotation(i: Inputs, q: Geometry.Quat): (j: Inputs)
    ensures j.originRotation == q && j.rotation == Geometry.QuatMul(i.resetRotation, q)
    ensures j.(rotation := i.rotation, originRotation := i.originRotation) == i
  {
    i.(originRotation := q, rotation := Geometry.QuatMul(i.resetRotation, q))
  }

  /** `SetControllerButtonState`: trigger, app and home are mutually
      exclusive; setting one clears the other two, and any other button is
      ignored. */
  function SetControllerButtonState(i: Inputs, button: bv32, state: int): (j: Inputs)
    requires ValidInputs(i)
    ensures ValidInputs(j)
    ensures button == ControllerInput.TRIGGER ==> j.buttonState == [state, 0, 0]
    ensures button == ControllerInput.APP ==> j.buttonState == [0, state, 0]
    ensures button == ControllerInput.HOME ==> j.buttonState == [0, 0, state]
    ensures button !in {ControllerInput.TRIGGER, ControllerInput.APP, ControllerInput.HOME} ==> j == i
    ensures j.(buttonState := i.buttonState) == i
  {
    if button == ControllerInput.TRIGGER then i.(buttonState := [state, 0, 0])
    else if button == ControllerInput.APP then i.(buttonState := [0, state, 0])
    else if button == ControllerInput.HOME then i.(buttonState := [0, 0, state])
    else i
  }

  /** The provider's own fields: whether it runs, a pending recenter, and how
      long HOME has been held. */
  datatype Provider = Provider(running: bool, needRecenter: bool, timeLast: real)

  /** Holding HOME for more than this many seconds requests a recenter. */
  const RecenterHoldSeconds: real := 2.0

  /** `CheckRecenter`: accumulates the time HOME is held and requests a
      recenter once it exceeds two seconds, restarting the count. */
  function CheckRecenter(pr: Provider, homeHeld: bool, deltaTime: real): (q: Provider)
    ensures q.running == pr.running
    ensures q.needRecenter <==> pr.needRecenter || (homeHeld && pr.timeLast + deltaTime > RecenterHoldSeconds)
    ensures !homeHeld || q.needRecenter != pr.needRecenter ==> q.timeLast == 0.0
    ensures homeHeld && pr.timeLast + deltaTime <= RecenterHoldSeconds ==> q.timeLast == pr.timeLast + deltaTime
  {
    if homeHeld then
      var t := pr.timeLast + deltaTime;
      if t > RecenterHoldSeconds then pr.(needRecenter := true, timeLast := 0.0)
      else pr.(timeLast := t)
    else pr.(timeLast := 0.0)
  }

  /** The masks computed from the inputs against the previous button mask
      `prev`. */
  function EditorButtons(prev: bv32, buttonState: seq<int>): (r: (bv32, bv32, bv32))
    requires |buttonState| == 3
  {
    var held: ControllerParsers.Buttons := [buttonState[0] == 1, buttonState[1] == 1, buttonState[2] == 1];
    var wasHeld: ControllerParsers.Buttons :=
      [prev & ControllerInput.TRIGGER != 0, prev & ControllerInput.APP != 0, prev & ControllerInput.HOME != 0];
    var released: ControllerParsers.Buttons := [buttonState[0] == 0, buttonState[1] == 0, buttonState[2] == 0];
    var down: ControllerParsers.Buttons := [!wasHeld[0] && held[0], !wasHeld[1] && held[1], !wasHeld[2] && held[2]];
    var up: ControllerParsers.Buttons := [wasHeld[0] && released[0], wasHeld[1] && released[1], wasHeld[2] && released[2]];
    (ControllerParsers.Mask(held), ControllerParsers.Mask(down), ControllerParsers.Mask(up))
  }

  /** What `EditorButtons` reports for each of the three buttons: held iff
      the value is 1; down iff held now and not before; up iff held before
      and the value is 0; never down and up at once. */
  lemma EditorButtonsBits(prev: bv32, buttonState: seq<int>)
    requires |buttonState| == 3
    ensures var r := EditorButtons(prev, buttonState);
      forall k :: 0 <= k < 3 ==>
      && (r.0 & ControllerParsers.BitOf(k) != 0 <==> buttonState[k] == 1)
      && (r.1 & ControllerParsers.BitOf(k) != 0 <==> prev & ControllerParsers.BitOf(k) == 0 && buttonState[k] == 1)
      && (r.2 & ControllerParsers.BitOf(k) != 0 <==> prev & ControllerParsers.BitOf(k) != 0 && buttonState[k] == 0)
      && !(r.1 & ControllerParsers.BitOf(k) != 0 && r.2 & ControllerParsers.BitOf(k) != 0)
  {
    var r := EditorButtons(prev, buttonState);
    forall k | 0 <= k < 3
      ensures r.0 & ControllerParsers.BitOf(k) != 0 <==> buttonState[k] == 1
      ensures r.1 & ControllerParsers.BitOf(k) != 0 <==> prev & ControllerParsers.BitOf(k) == 0 && buttonState[k] == 1
      ensures r.2 & ControllerParsers.BitOf(k) != 0 <==> prev & ControllerParsers.BitOf(k) != 0 && buttonState[k] == 0
    {
      EditorButtonBit(prev, buttonState, k);
    }
  }

  /** `EditorButtonsBits` for one button. */
  lemma EditorButtonBit(prev: bv32, buttonState: seq<int>, k: nat)
    requires |buttonState| == 3 && k < 3
    ensures var r := EditorButtons(prev, buttonState);
      && (r.0 & ControllerParsers.BitOf(k) != 0 <==> buttonState[k] == 1)
      && (r.1 & ControllerParsers.BitOf(k) != 0 <==> prev & ControllerParsers.BitOf(k) == 0 && buttonState[k] == 1)
      && (r.2 & ControllerParsers.BitOf(k) != 0 <==> prev & ControllerParsers.BitOf(k) != 0 && buttonState[k] == 0)
  {
  }

  /** With button values 0 and 1 only, the editor's edges are the parsers'
      edges between the previous and the new sample. */
  lemma EditorEdgesAgreeWithParsers(prev: ControllerParsers.Buttons, buttonState: seq<int>)
    requires |buttonState| == 3 && forall k :: 0 <= k < 3 ==> buttonState[k] == 0 || buttonState[k] == 1
    ensures var cur: ControllerParsers.Buttons := [buttonState[0] == 1, buttonState[1] == 1, buttonState[2] == 1];
      var (down, up) := ControllerParsers.Edges(prev, cur);
      var r := EditorButtons(ControllerParsers.Mask(prev), buttonState);
      r == (ControllerParsers.Mask(cur), ControllerParsers.Mask(down), ControllerParsers.Mask(up))
  {
    var cur: ControllerParsers.Buttons := [buttonState[0] == 1, buttonState[1] == 1, buttonState[2] == 1];
    var m := ControllerParsers.Mask(prev);
    assert forall k :: 0 <= k < 3 ==> (m & ControllerParsers.BitOf(k) != 0 <==> prev[k]);
    assert m & ControllerInput.TRIGGER != 0 <==> prev[0] by { assert ControllerParsers.BitOf(0) == ControllerInput.TRIGGER; }
    assert m & ControllerInput.APP != 0 <==> prev[1] by { assert ControllerParsers.BitOf(1) == ControllerInput.APP; }
    assert m & ControllerInput.HOME != 0 <==> prev[2] by { assert ControllerParsers.BitOf(2) == ControllerInput.HOME; }
  }

  /** `UpdateControllerState(0)`: reports an editor controller, connected,
      rotation-only, at full battery, copying the touch inputs; derives the
      buttons either through the registered parser (when the virtual display
      is emulated; `parse` stands for it) or from the button inputs; then
      handles a pending recenter, which also fixes the rotation correction to
      undo the current raw rotation. The result is the provider, the state and
      the static inputs. */
  function UpdateControllerState(pr: Provider, i: Inputs, s: ControllerInput.State, deltaTime: real,
                                 emulateVirtualDisplay: bool, parse: ControllerInput.State -> ControllerInput.State)
    : (r: (Provider, ControllerInput.State, Inputs))
    requires ValidInputs(i)
    ensures !emulateVirtualDisplay ==>
      var t := r.1;
      && t.controllerType == ControllerInput.TypeEditor
      && t.availableFeature == ControllerInput.FEATURE_ROTATION
      && t.connectionState == ControllerInput.Connected
      && t.batteryLevel == 100 && !t.isCharging
      && t.touchPos == i.touchPos && t.isTouching == i.isTouching && t.rotation == i.rotation
    ensures !emulateVirtualDisplay ==>
      (r.1.buttonsState, r.1.buttonsDown, r.1.buttonsUp) == EditorButtons(s.buttonsState, i.buttonState)
    ensures !r.0.needRecenter && r.0.running == pr.running
    ensures var homeHeld := ControllerInput.GetButton(r.1, ControllerInput.HOME);
      !emulateVirtualDisplay ==>
      r.1.recentered == (pr.needRecenter || (homeHeld && pr.timeLast + deltaTime > RecenterHoldSeconds))
    ensures !emulateVirtualDisplay ==>
      r.2 == if r.1.recentered then i.(resetRotation := Geometry.Conjugate(i.originRotation)) else i
  {
    var s1 := EditorSample(s, i);
    var s2 := if emulateVirtualDisplay then parse(s1) else WithEditorButtons(s1, i);
    ApplyRecenter(pr, i, s2, deltaTime)
  }

  /** The inputs copied into the state, before any button is derived. */
  function EditorSample(s: ControllerInput.State, i: Inputs): (t: ControllerInput.State) {
    s.(controllerType := ControllerInput.TypeEditor,
       availableFeature := ControllerInput.FEATURE_ROTATION,
       connectionState := ControllerInput.Connected,
       rotation := i.rotation,
       touchPos := i.touchPos,
       isTouching := i.isTouching,
       recentered := false,
       isCharging := false,
       batteryLevel := 100)
  }

  /** The button masks derived from the inputs against the state's own mask. */
  function WithEditorButtons(s: ControllerInput.State, i: Inputs): (t: ControllerInput.State)
    requires ValidInputs(i)
    ensures (t.buttonsState, t.buttonsDown, t.buttonsUp) == EditorButtons(s.buttonsState, i.buttonState)
    ensures t == s.(buttonsState := t.buttonsState, buttonsDown := t.buttonsDown, buttonsUp := t.buttonsUp)
  {
    var m := EditorButtons(s.buttonsState, i.buttonState);
    s.(buttonsState := m.0, buttonsDown := m.1, buttonsUp := m.2)
  }

  /** The recenter step of an update: the HOME hold time is accumulated and a
      pending recenter is reported on the state, fixes the rotation
      correction to the inverse of the raw rotation, and is cleared. */
  function ApplyRecenter(pr: Provider, i: Inputs, s: ControllerInput.State, deltaTime: real)
    : (r: (Provider, ControllerInput.State, Inputs))
    ensures !r.0.needRecenter && r.0.running == pr.running
    ensures r.1 == s.(recentered := r.1.recentered)
    ensures var fired := pr.needRecenter
      || (ControllerInput.GetButton(s, ControllerInput.HOME) && pr.timeLast + deltaTime > RecenterHoldSeconds);
      && r.1.recentered == (s.recentered || fired)
      && r.2 == if fired then i.(resetRotation := Geometry.Conjugate(i.originRotation)) else i
  {
    var pr1 := CheckRecenter(pr, ControllerInput.GetButton(s, ControllerInput.HOME), deltaTime);
    if pr1.needRecenter then
      (pr1.(needRecenter := false), s.(recentered := true), i.(resetRotation := Geometry.Conjugate(i.originRotation)))
    else (pr1, s, i)
  }

  /** `Update`: nothing happens while the provider is not running. */
  function Update(pr: Provider, i: Inputs, s: ControllerInput.State, deltaTime: real,
                  emulateVirtualDisplay: bool, parse: ControllerInput.State -> ControllerInput.State)
    : (r: (Provider, ControllerInput.State, Inputs))
    requires ValidInputs(i)
    ensures !pr.running ==> r == (pr, s, i)
    ensures pr.running ==> !r.0.needRecenter
  {
    if !pr.running then (pr, s, i)
    else UpdateControllerState(pr, i, s, deltaTime, emulateVirtualDisplay, parse)
  }

  /** `Recenter`: requests a recenter on the next update. */
  function Recenter(pr: Provider): (q: Provider)
    ensures q.needRecenter && q.running == pr.running
  {
    pr.(needRecenter := true)
  }

  /** Pressing the trigger through the setter and updating from a state with
      no button held reports the trigger down and held, and nothing else. */
  lemma PressTriggerReportsDown(pr: Provider, i: Inputs, s: ControllerInput.State, deltaTime: real,
                                parse: ControllerInput.State -> ControllerInput.State)
    requires ValidInputs(i) && pr.running && s.buttonsState == 0
    ensures var t := Update(pr, SetControllerButtonState(i, ControllerInput.TRIGGER, 1), s, deltaTime, false, parse).1;
      && t.buttonsState == ControllerInput.TRIGGER
      && t.buttonsDown == ControllerInput.TRIGGER
      && t.buttonsUp == 0
  {
    var j := SetControllerButtonState(i, ControllerInput.TRIGGER, 1);
    var (held, down, up) := EditorButtons(0, j.buttonState);
    assert ControllerParsers.BitOf(0) == ControllerInput.TRIGGER;
    assert ControllerParsers.BitOf(1) == ControllerInput.APP;
    assert ControllerParsers.BitOf(2) == ControllerInput.HOME;
    assert held == ControllerInput.TRIGGER;
    assert down == ControllerInput.TRIGGER;
    assert up == 0;
  }

  /** A recenter makes the raw rotation of that moment the new neutral: when
      a running provider with a recenter pending updates, the same rotation
      set again afterwards is reported as the identity. */
  lemma RecenterZeroesRotation(pr: Provider, i: Inputs, s: ControllerInput.State, deltaTime: real,
                               parse: ControllerInput.State -> ControllerInput.State)
    requires ValidInputs(i) && pr.running && pr.needRecenter && Geometry.IsUnit(i.originRotation)
    ensures var r := Update(pr, i, s, deltaTime, false, parse);
      && r.1.recentered
      && SetControllerRotation(r.2, i.originRotation).rotation == Geometry.IdentityQuat
  {
    Geometry.ConjugateIsInverse(i.originRotation);
  }

  /** Without a recenter the correction stays the identity, so the rotation
      set is the rotation reported. */
  lemma NoRecenterReportsRaw(q: Geometry.Quat)
    ensures SetControllerRotation(NewInputs(), q).rotation == q
  {
    Geometry.MulIdentity(q);
  }
}
