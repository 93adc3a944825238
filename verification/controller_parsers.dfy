/** The controller state parsers: `XrealLightControllerStateParser`, which
    turns one physical trigger and a touch pad into three logical buttons, and
    `NRHandControllerStateParser`, which turns a pinch (reported as touching)
    into the trigger. Both keep the previous sample of their three logical
    buttons and report rising and falling edges. */
module ControllerParsers {
  import ControllerInput
  import Geometry

  /** The three logical buttons, in the parsers' array order: trigger, app, home. */
  type Buttons = b: seq<bool> | |b| == 3 witness [false, false, false]

  const NoButtons: Buttons := [false, false, false]

  /** The `ControllerButton` bit a logical button index reports as. */
  function BitOf(i: nat): bv32
    requires i < 3
  {
    if i == 0 then ControllerInput.TRIGGER else if i == 1 then ControllerInput.APP else ControllerInput.HOME
  }

  /** The only bits a parser ever reports. */
  const ParserBits: bv32 := ControllerInput.TRIGGER | ControllerInput.APP | ControllerInput.HOME

  /** The button mask built from three flags. It sets nothing but the
      trigger, app and home bits, and each of those decodes back to its flag. */
  function Mask(b: Buttons): (m: bv32)
    ensures m & !ParserBits == 0
    ensures forall i :: 0 <= i < 3 ==> (m & BitOf(i) != 0 <==> b[i])
  {
    (if b[0] then ControllerInput.TRIGGER else 0)
    | (if b[1] then ControllerInput.APP else 0)
    | (if b[2] then ControllerInput.HOME else 0)
  }

  /** The rising (`down`) and falling (`up`) edges from `prev` to `cur`. No
      button is ever both down and up. */
  function Edges(prev: Buttons, cur: Buttons): (r: (Buttons, Buttons))
    ensures forall i :: 0 <= i < 3 ==> (r.0[i] <==> !prev[i] && cur[i])
    ensures forall i :: 0 <= i < 3 ==> (r.1[i] <==> prev[i] && !cur[i])
    ensures forall i :: 0 <= i < 3 ==> !(r.0[i] && r.1[i])
  {
    ([!prev[0] && cur[0], !prev[1] && cur[1], !prev[2] && cur[2]],
     [prev[0] && !cur[0], prev[1] && !cur[1], prev[2] && !cur[2]])
  }

  /** The edges are enough to replay the current sample from the previous
      one: a button is held now iff it just went down, or was held and did
      not go up. */
  lemma EdgesReplay(prev: Buttons, cur: Buttons)
    ensures var (down, up) := Edges(prev, cur);
      forall i :: 0 <= i < 3 ==> (cur[i] <==> down[i] || (prev[i] && !up[i]))
  {
  }

  /** A state reports the three flags `b`, `down` and `up` through its
      button masks, and sets no other button bit. */
  predicate Reports(t: ControllerInput.State, b: Buttons, down: Buttons, up: Buttons) {
    && (forall i :: 0 <= i < 3 ==>
      && (ControllerInput.GetButton(t, BitOf(i)) <==> b[i])
      && (ControllerInput.GetButtonDown(t, BitOf(i)) <==> down[i])
      && (ControllerInput.GetButtonUp(t, BitOf(i)) <==> up[i]))
    && t.buttonsState & !ParserBits == 0
    && t.buttonsDown & !ParserBits == 0
    && t.buttonsUp & !ParserBits == 0
  }

  /** Writes the three masks into a state, leaving its other fields alone. */
  function Report(s: ControllerInput.State, b: Buttons, down: Buttons, up: Buttons): (t: ControllerInput.State)
    ensures Reports(t, b, down, up)
    ensures t == s.(buttonsState := t.buttonsState, buttonsDown := t.buttonsDown, buttonsUp := t.buttonsUp)
  {
    var t := s.(buttonsState := Mask(b), buttonsDown := Mask(down), buttonsUp := Mask(up));
    MasksReport(t, b, down, up);
    t
  }

  /** A state whose three masks were built by `Mask` reports their flags. */
  lemma MasksReport(t: ControllerInput.State, b: Buttons, down: Buttons, up: Buttons)
    requires t.buttonsState == Mask(b) && t.buttonsDown == Mask(down) && t.buttonsUp == Mask(up)
    ensures Reports(t, b, down, up)
  {
    MaskDecodes(t.buttonsState, b);
    MaskDecodes(t.buttonsDown, down);
    MaskDecodes(t.buttonsUp, up);
  }

  /** A mask built by `Mask` answers each button query with its flag. */
  lemma MaskDecodes(m: bv32, b: Buttons)
    requires m == Mask(b)
    ensures forall i :: 0 <= i < 3 ==> (m & BitOf(i) != 0 <==> b[i])
    ensures m & !ParserBits == 0
  {
    assert BitOf(0) == ControllerInput.TRIGGER && BitOf(1) == ControllerInput.APP && BitOf(2) == ControllerInput.HOME;
  }

  // ---------------------------------------------------------------------
  // XrealLightControllerStateParser

  /** `TouchAreaEnum`. */
  datatype TouchArea = None | Center | Up | Down | Left | Right

  const Sqrt2: real := 1.414
  const CenterHalfSideLength: real := 0.9 / Sqrt2
  const Precision: real := 0.000001

  function Abs(x: real): real {
    if x < 0.0 then -x else x
  }

  /** `UpdateCurrentTouchArea`: the lower band of the pad is Home, the upper
      band App, the rest Center; nothing while not touching. Left and Right
      are never produced. */
  function ClassifyTouch(touching: bool, touch: Geometry.Vec2): (a: TouchArea)
    ensures !touching ==> a == None
    ensures touching ==> (a == Down <==> touch.y < -CenterHalfSideLength * 0.9)
    ensures touching ==> (a == Up <==> touch.y > CenterHalfSideLength * 0.8)
    ensures touching ==> (a == Center <==> -CenterHalfSideLength * 0.9 <= touch.y <= CenterHalfSideLength * 0.8)
    ensures a != Left && a != Right
  {
    if !touching then None
    else if touch.y < -CenterHalfSideLength * 0.9 then Down
    else if touch.y > CenterHalfSideLength * 0.8 then Up
    else Center
  }

  /** The logical button an area presses: Center the trigger, Up the app
      button, Down the home button; -1 for none. */
  function AreaButton(a: TouchArea): int {
    match a
    case Center => 0
    case Up => 1
    case Down => 2
    case _ => -1
  }

  /** `_current_down_btn`, when not -1, is the index of the only button held;
      when -1, no button is held. */
  predicate Latched(buttons: Buttons, current: int) {
    -1 <= current < 3 && forall i :: 0 <= i < 3 ==> (buttons[i] <==> i == current)
  }

  /** The first held button's index, -1 when none is held. */
  function FirstHeld(b: Buttons): (r: int)
    ensures -1 <= r < 3
    ensures r == -1 <==> forall i :: 0 <= i < 3 ==> !b[i]
    ensures r >= 0 ==> b[r] && forall j :: 0 <= j < r ==> !b[j]
  {
    if b[0] then 0 else if b[1] then 1 else if b[2] then 2 else -1
  }

  /** The latching step: a latched button follows the physical trigger and is
      unlatched on its release; with nothing latched, the area under the
      finger's button is pressed on a rising edge of the trigger. */
  function Latch(buttons: Buttons, current: int, area: TouchArea, wasPressed: bool, pressed: bool)
    : (r: (Buttons, int))
    requires -1 <= current < 3
    ensures current != -1 ==> Latched(buttons, current) ==> Latched(r.0, r.1)
    ensures current == -1 ==> Latched(r.0, r.1)
    ensures current != -1 && Latched(buttons, current) ==>
      (pressed ==> r.1 == current) && (!pressed ==> r.1 == -1)
    ensures current == -1 && r.1 != -1 ==>
      !wasPressed && pressed && r.1 == AreaButton(area)
    ensures current == -1 && !wasPressed && pressed && AreaButton(area) != -1 ==> r.1 == AreaButton(area)
  {
    if current != -1 then
      var b := buttons[current := pressed];
      (b, if !b[current] then -1 else current)
    else
      var isDown := !wasPressed && pressed;
      var b: Buttons :=
        if area == Center then [pressed && isDown, false, false]
        else if area == Up then [false, pressed && isDown, false]
        else if area == Down then [false, false, pressed && isDown]
        else NoButtons;
      (b, FirstHeld(b))
  }

  /** The parser's fields. */
  datatype XrealLightParser = XrealLightParser(
    buttonsDown: Buttons,
    buttonsUp: Buttons,
    buttons: Buttons,
    down: Buttons,
    touch: Geometry.Vec2,
    currentTouchArea: TouchArea,
    touchStatus: bool,
    physicalButton: bool,
    physicalButtonDown: bool,
    currentDownBtn: int)

  /** The parser's field initialisers. */
  function NewXrealLightParser(): (p: XrealLightParser)
    ensures Latched(p.buttons, p.currentDownBtn) && p.currentDownBtn == -1
  {
    XrealLightParser(NoButtons, NoButtons, NoButtons, NoButtons, Geometry.Zero2, None, false, false, false, -1)
  }

  /** The invariant every call keeps. */
  predicate Valid(p: XrealLightParser) {
    Latched(p.buttons, p.currentDownBtn)
  }

  /** `ParserControllerState`: reads the touch and the physical trigger from
      the state and writes back `isTouching`, `touchPos` and the three
      button masks. */
  function ParseXrealLight(p: XrealLightParser, s: ControllerInput.State): (r: (XrealLightParser, ControllerInput.State))
    requires Valid(p)
    ensures Valid(r.0)
    ensures r.1.isTouching <==> Abs(s.touchPos.x) > Precision || Abs(s.touchPos.y) > Precision
    ensures r.1.touchPos == if r.1.isTouching then s.touchPos else Geometry.Zero2
    ensures r.0.currentTouchArea == ClassifyTouch(r.1.isTouching, r.1.touchPos)
    ensures r.0.physicalButton == ControllerInput.GetButton(s, ControllerInput.TRIGGER)
    ensures r.0.physicalButtonDown == p.physicalButton
    ensures p.currentDownBtn == -1 && r.0.currentDownBtn != -1 ==>
      !p.physicalButton && r.0.physicalButton && r.0.currentDownBtn == AreaButton(r.0.currentTouchArea)
    ensures (r.0.buttonsDown, r.0.buttonsUp) == Edges(p.buttons, r.0.buttons)
    ensures r.1 == Report(s.(isTouching := r.1.isTouching, touchPos := r.1.touchPos),
      r.0.buttons, r.0.buttonsDown, r.0.buttonsUp)
  {
    var touching := Abs(s.touchPos.x) > Precision || Abs(s.touchPos.y) > Precision;
    var touch := if touching then s.touchPos else Geometry.Zero2;
    var area := ClassifyTouch(touching, touch);
    var pressed := ControllerInput.GetButton(s, ControllerInput.TRIGGER);
    var (buttons, current) := Latch(p.buttons, p.currentDownBtn, area, p.physicalButton, pressed);
    var edges := Edges(p.buttons, buttons);
    var p' := XrealLightParser(edges.0, edges.1, buttons, p.buttons, touch, area, touching, pressed, p.physicalButton, current);
    (p', Report(s.(isTouching := touching, touchPos := touch), buttons, edges.0, edges.1))
  }

  /** The logical buttons are exclusive: at most one of trigger, app and home
      is reported held after any call. */
  lemma XrealLightReportsOneButton(p: XrealLightParser, s: ControllerInput.State)
    requires Valid(p)
    ensures var b := ParseXrealLight(p, s).1.buttonsState;
      b == 0 || b == ControllerInput.TRIGGER || b == ControllerInput.APP || b == ControllerInput.HOME
  {
    var r := ParseXrealLight(p, s);
    var b := r.0.buttons;
    if b[0] {
      assert b == [true, false, false];
    } else if b[1] {
      assert b == [false, true, false];
    } else if b[2] {
      assert b == [false, false, true];
    } else {
      assert b == NoButtons;
    }
  }

  /** A latched button stays the reported one while the trigger is held,
      wherever the finger moves on the pad, and is released (reporting its
      up edge) when the trigger is let go. */
  lemma LatchFollowsTrigger(p: XrealLightParser, s: ControllerInput.State)
    requires Valid(p) && p.currentDownBtn >= 0
    ensures var r := ParseXrealLight(p, s);
      var k := p.currentDownBtn;
      if ControllerInput.GetButton(s, ControllerInput.TRIGGER) then
        r.0.currentDownBtn == k && ControllerInput.GetButton(r.1, BitOf(k))
        && !ControllerInput.GetButtonDown(r.1, BitOf(k))
      else
        r.0.currentDownBtn == -1 && r.1.buttonsState == 0 && ControllerInput.GetButtonUp(r.1, BitOf(k))
  {
    var r := ParseXrealLight(p, s);
    if !ControllerInput.GetButton(s, ControllerInput.TRIGGER) {
      assert r.0.buttons == NoButtons;
    }
  }

  // ---------------------------------------------------------------------
  // NRHandControllerStateParser

  /** The hand parser's fields. */
  datatype HandParser = HandParser(buttonsDown: Buttons, buttonsUp: Buttons, buttons: Buttons, down: Buttons)

  function NewHandParser(): (p: HandParser)
    ensures p.buttons == NoButtons
  {
    HandParser(NoButtons, NoButtons, NoButtons, NoButtons)
  }

  /** `ParserControllerState`: the trigger is the pinch (`isTouching`), app
      and home are never pressed, and down/up are the edges against the
      previous call. Only the three masks are written back. */
  function ParseHand(p: HandParser, s: ControllerInput.State): (r: (HandParser, ControllerInput.State))
    ensures r.0.buttons == [s.isTouching, false, false]
    ensures ControllerInput.GetButton(r.1, ControllerInput.TRIGGER) == s.isTouching
    ensures !ControllerInput.GetButton(r.1, ControllerInput.APP) && !ControllerInput.GetButton(r.1, ControllerInput.HOME)
    ensures forall i :: 0 <= i < 3 ==>
      (r.0.buttonsDown[i] <==> !p.buttons[i] && r.0.buttons[i])
      && (r.0.buttonsUp[i] <==> p.buttons[i] && !r.0.buttons[i])
      && !(r.0.buttonsDown[i] && r.0.buttonsUp[i])
    ensures r.1 == Report(s, r.0.buttons, r.0.buttonsDown, r.0.buttonsUp)
  {
    var buttons: Buttons := [s.isTouching, false, false];
    var (down, up) := Edges(p.buttons, buttons);
    (HandParser(down, up, buttons, p.buttons),
     Report(s, buttons, down, up))
  }

  /** Over two consecutive calls, the trigger goes down exactly when a pinch
      starts and up exactly when it ends. */
  lemma HandTriggerEdges(p: HandParser, s0: ControllerInput.State, s1: ControllerInput.State)
    ensures var r1 := ParseHand(ParseHand(p, s0).0, s1).1;
      && (ControllerInput.GetButtonDown(r1, ControllerInput.TRIGGER) <==> !s0.isTouching && s1.isTouching)
      && (ControllerInput.GetButtonUp(r1, ControllerInput.TRIGGER) <==> s0.isTouching && !s1.isTouching)
  {
    var q := ParseHand(p, s0).0;
    var r := ParseHand(q, s1);
    assert BitOf(0) == ControllerInput.TRIGGER;
    assert ControllerInput.GetButtonDown(r.1, BitOf(0)) <==> !q.buttons[0] && r.0.buttons[0];
  }
}
