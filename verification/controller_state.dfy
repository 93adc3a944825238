/** `ControllerState`: one controller's state as the input layer sees it —
    button bitmasks (held, went down, went up), feature flags, touch, and the
    per-button listener table — with the per-frame edge detection that turns
    the masks into Down / Pressing / Up / Click events. */
module ControllerInput {
  import Geometry

  /** `ControllerType` and its numeric values. */
  datatype ControllerType = TypeEditor | TypeUnknown | TypeXrealLight | TypePhone | TypeHand

  function TypeCode(t: ControllerType): int {
    match t
    case TypeEditor => 1001
    case TypeUnknown => -1
    case TypeXrealLight => 0
    case TypePhone => 1
    case TypeHand => 2
  }

  /** `ControllerConnectionState`. */
  datatype ConnectionState = ConnError | NotInitialized | Disconnected | Connecting | Connected

  /** `ControllerButton` bits; `BEGIN` is `TRIGGER` and `END` is
      `TOUCHPAD_BUTTON`. */
  const TRIGGER: bv32 := 1
  const APP: bv32 := 2
  const HOME: bv32 := 4
  const GRIP: bv32 := 8
  const TOUCHPAD_BUTTON: bv32 := 16

  /** The buttons `CheckButtonEvents` visits, in order: every power of two
      from `BEGIN` to `END`. */
  const AllButtons: seq<bv32> := [TRIGGER, APP, HOME, GRIP, TOUCHPAD_BUTTON]

  /** `ControllerAvailableFeature` bits. */
  const FEATURE_POSITION: bv64 := 1
  const FEATURE_ROTATION: bv64 := 2
  const FEATURE_GYRO: bv64 := 4
  const FEATURE_ACCEL: bv64 := 8
  const FEATURE_MAG: bv64 := 16
  const FEATURE_BATTERY: bv64 := 32
  const FEATURE_CHARGING: bv64 := 64
  const FEATURE_RECENTER: bv64 := 128
  const FEATURE_HAPTIC_VIBRATE: bv64 := 256

  /** `ButtonEventType`. */
  datatype ButtonEvent = Down | Pressing | Up | Click

  /** `NRInput.ClickInterval`: a release within 0.3 s of the press is a
      click. */
  const ClickInterval: real := 0.3

  /** A listener (`Action`) by identity. */
  type ActionId = nat

  /** The fields of a `ControllerState`. A multicast delegate is the sequence
      of its invocation list; the listener table never keeps an empty one. */
  datatype State = State(
    controllerType: ControllerType,
    connectionState: ConnectionState,
    rotation: Geometry.Quat,
    position: Geometry.Vec3,
    gyro: Geometry.Vec3,
    accel: Geometry.Vec3,
    mag: Geometry.Vec3,
    touchPos: Geometry.Vec2,
    deltaTouch: Geometry.Vec2,
    isTouching: bool,
    recentered: bool,
    buttonsState: bv32,
    buttonsDown: bv32,
    buttonsUp: bv32,
    isCharging: bool,
    batteryLevel: int,
    availableFeature: bv64,
    lastTouchPos: Geometry.Vec2,
    lastDownTime: map<bv32, real>,
    listeners: map<(ButtonEvent, bv32), seq<ActionId>>)

  /** `IsFeatureAvailable`. */
  predicate IsFeatureAvailable(s: State, feature: bv64) {
    s.availableFeature & feature != 0
  }

  /** `Is6dof`: both position and rotation are available. */
  predicate Is6dof(s: State) {
    IsFeatureAvailable(s, FEATURE_POSITION) && IsFeatureAvailable(s, FEATURE_ROTATION)
  }

  lemma Is6dofBits(s: State)
    ensures Is6dof(s) <==> s.availableFeature & 3 == 3
  {
  }

  predicate GetButton(s: State, b: bv32) { s.buttonsState & b != 0 }
  predicate GetButtonDown(s: State, b: bv32) { s.buttonsDown & b != 0 }
  predicate GetButtonUp(s: State, b: bv32) { s.buttonsUp & b != 0 }

  /** `Reset`: unknown type, not initialized, identity rotation, zero vectors
      and touch, every mask and the battery at zero. The delta touch, the
      last touch position, the press times and the listeners are kept. */
  function Reset(s: State): (t: State)
    ensures t.controllerType == TypeUnknown && t.connectionState == NotInitialized
    ensures t.rotation == Geometry.IdentityQuat
    ensures t.position == Geometry.Zero3 && t.gyro == Geometry.Zero3
    ensures t.accel == Geometry.Zero3 && t.mag == Geometry.Zero3
    ensures t.touchPos == Geometry.Zero2 && !t.isTouching && !t.recentered
    ensures t.buttonsState == 0 && t.buttonsDown == 0 && t.buttonsUp == 0
    ensures !t.isCharging && t.batteryLevel == 0 && t.availableFeature == 0
    ensures t.deltaTouch == s.deltaTouch && t.lastTouchPos == s.lastTouchPos
    ensures t.lastDownTime == s.lastDownTime && t.listeners == s.listeners
  {
    s.(controllerType := TypeUnknown, connectionState := NotInitialized,
       rotation := Geometry.IdentityQuat, position := Geometry.Zero3,
       gyro := Geometry.Zero3, accel := Geometry.Zero3, mag := Geometry.Zero3,
       touchPos := Geometry.Zero2, isTouching := false, recentered := false,
       buttonsState := 0, buttonsDown := 0, buttonsUp := 0,
       isCharging := false, batteryLevel := 0, availableFeature := 0)
  }

  /** The constructor: empty tables, then `Reset`. */
  function NewState(): (s: State)
    ensures s.listeners == map[] && s.lastDownTime == map[]
    ensures s.controllerType == TypeUnknown && s.buttonsState == 0
  {
    var z := Geometry.Zero2;
    var v := Geometry.Zero3;
    Reset(State(TypeUnknown, NotInitialized, Geometry.IdentityQuat, v, v, v, v, z, z,
                false, false, 0, 0, 0, false, 0, 0, z, map[], map[]))
  }

  /** A listener table entry: an event type and a button. */
  type Key = (ButtonEvent, bv32)

  /** No entry of the table holds an empty invocation list. */
  predicate NoEmptyLists(m: map<Key, seq<ActionId>>) {
    forall k | k in m :: |m[k]| > 0
  }

  /** `AddButtonListener`: appends the action to the entry's invocation list,
      creating the entry when missing. */
  function AddListener(m: map<Key, seq<ActionId>>, k: Key, a: ActionId): (m': map<Key, seq<ActionId>>)
    requires NoEmptyLists(m)
    ensures NoEmptyLists(m')
    ensures k in m' && m'[k] == (if k in m then m[k] else []) + [a]
    ensures forall j :: j != k ==> (j in m' <==> j in m)
    ensures forall j | j in m && j != k :: m'[j] == m[j]
  {
    var prior := if k in m then m[k] else [];
    m[k := prior + [a]]
  }

  /** The position of the last occurrence of `a` in `list`, or -1. */
  function LastIndex(list: seq<ActionId>, a: ActionId): (i: int)
    ensures -1 <= i < |list|
    ensures i == -1 <==> a !in list
    ensures i >= 0 ==> list[i] == a && a !in list[i + 1..]
    decreases |list|
  {
    if |list| == 0 then -1
    else
      var n := |list| - 1;
      if list[n] == a then n
      else
        var i := LastIndex(list[..n], a);
        assert list == list[..n] + [list[n]];
        assert i >= 0 ==> list[i + 1..] == list[..n][i + 1..] + [list[n]];
        i
  }

  /** Delegate `-=`: removes the last occurrence of the action, keeping the
      other entries in order; a list that does not hold it is unchanged. */
  function RemoveLast(list: seq<ActionId>, a: ActionId): (r: seq<ActionId>)
    ensures a !in list ==> r == list
    ensures var i := LastIndex(list, a); i >= 0 ==> r == list[..i] + list[i + 1..]
    decreases |list|
  {
    if |list| == 0 then []
    else
      var n := |list| - 1;
      if list[n] == a then
        RemoveLastHere(list, a);
        list[..n]
      else
        var rest := RemoveLast(list[..n], a);
        RemoveLastStep(list, a, rest);
        rest + [list[n]]
  }

  /** The case of `RemoveLast` where the last entry is `a`. */
  lemma RemoveLastHere(list: seq<ActionId>, a: ActionId)
    requires |list| > 0 && list[|list| - 1] == a
    ensures var n := |list| - 1; LastIndex(list, a) == n && list[..n] == list[..n] + list[n + 1..]
  {
    assert list[|list|..] == [];
  }

  /** The recursive case of `RemoveLast`: when the last entry is not `a`,
      the removal happens inside the prefix. */
  lemma RemoveLastStep(list: seq<ActionId>, a: ActionId, rest: seq<ActionId>)
    requires |list| > 0 && list[|list| - 1] != a
    requires var p := list[..|list| - 1];
      && (a !in p ==> rest == p)
      && (var i := LastIndex(p, a); i >= 0 ==> rest == p[..i] + p[i + 1..])
    ensures var r := rest + [list[|list| - 1]];
      && (a !in list ==> r == list)
      && (var i := LastIndex(list, a); i >= 0 ==> r == list[..i] + list[i + 1..])
  {
    var n := |list| - 1;
    assert list == list[..n] + [list[n]];
    var i := LastIndex(list, a);
    assert i == LastIndex(list[..n], a);
    if i >= 0 {
      assert list[..n][..i] == list[..i];
      assert list[i + 1..] == list[..n][i + 1..] + [list[n]];
    }
  }

  /** `-=` takes exactly one copy of the action away, when there is one. */
  lemma RemoveLastMultiset(list: seq<ActionId>, a: ActionId)
    ensures multiset(RemoveLast(list, a)) == multiset(list) - multiset{a}
  {
    var i := LastIndex(list, a);
    if i >= 0 {
      var front, back := list[..i], list[i + 1..];
      assert list == front + [a] + back;
      MultisetWithout(front, a, back);
    } else {
      assert a !in multiset(list);
    }
  }

  lemma MultisetWithout(front: seq<ActionId>, x: ActionId, back: seq<ActionId>)
    ensures multiset(front + back) == multiset(front + [x] + back) - multiset{x}
  {
    assert multiset(front + [x] + back) == multiset(front) + multiset{x} + multiset(back);
  }

  /** `RemoveButtonListener`: removes the action from the entry's invocation
      list and deletes the entry once the list becomes empty. */
  function RemoveListener(m: map<Key, seq<ActionId>>, k: Key, a: ActionId): (m': map<Key, seq<ActionId>>)
    requires NoEmptyLists(m)
    ensures NoEmptyLists(m')
    ensures k !in m ==> m' == m
    ensures k in m && RemoveLast(m[k], a) == [] ==> k !in m'
    ensures k in m && RemoveLast(m[k], a) != [] ==> k in m' && m'[k] == RemoveLast(m[k], a)
    ensures forall j :: j != k ==> (j in m' <==> j in m)
    ensures forall j | j in m && j != k :: m'[j] == m[j]
  {
    if k !in m then m
    else
      var r := RemoveLast(m[k], a);
      if r == [] then m - {k} else m[k := r]
  }

  /** Adding a listener and removing it again restores the table. */
  lemma AddThenRemove(m: map<Key, seq<ActionId>>, k: Key, a: ActionId)
    requires NoEmptyLists(m)
    ensures RemoveListener(AddListener(m, k, a), k, a) == m
  {
    var prior := if k in m then m[k] else [];
    assert RemoveLast(prior + [a], a) == prior;
  }

  /** The one listener of an entry removed leaves no entry behind. */
  lemma RemoveOnlyListenerDeletesKey(m: map<Key, seq<ActionId>>, k: Key, a: ActionId)
    requires NoEmptyLists(m) && k in m && m[k] == [a]
    ensures k !in RemoveListener(m, k, a)
  {
  }

  /** `UpdateDeltaTouch`: the movement since the previous touch, or zero if
      either touch is zero; the current touch becomes the previous one. */
  function UpdateDeltaTouch(s: State): (t: State)
    ensures t.lastTouchPos == s.touchPos
    ensures s.lastTouchPos == Geometry.Zero2 || s.touchPos == Geometry.Zero2 ==> t.deltaTouch == Geometry.Zero2
    ensures s.lastTouchPos != Geometry.Zero2 && s.touchPos != Geometry.Zero2 ==>
      t.deltaTouch.x + s.lastTouchPos.x == s.touchPos.x && t.deltaTouch.y + s.lastTouchPos.y == s.touchPos.y
    ensures t == s.(deltaTouch := t.deltaTouch, lastTouchPos := t.lastTouchPos)
  {
    var d := if s.lastTouchPos == Geometry.Zero2 || s.touchPos == Geometry.Zero2 then Geometry.Zero2
             else Geometry.Sub2(s.touchPos, s.lastTouchPos);
    s.(deltaTouch := d, lastTouchPos := s.touchPos)
  }

  /** The events one button raises at time `now`, and the press-time table
      after it: Down on the down bit (recording `now`); Pressing while held;
      otherwise Up on the up bit, followed by Click when the recorded press is
      less than `ClickInterval` ago. */
  function ButtonEvents(s: State, lastDown: map<bv32, real>, b: bv32, now: real)
    : (r: (seq<ButtonEvent>, map<bv32, real>))
    ensures Down in r.0 <==> GetButtonDown(s, b)
    ensures Pressing in r.0 <==> GetButton(s, b)
    ensures Up in r.0 <==> !GetButton(s, b) && GetButtonUp(s, b)
    ensures Click in r.0 <==>
      !GetButton(s, b) && GetButtonUp(s, b) && b in r.1 && now - r.1[b] < ClickInterval
    ensures GetButtonDown(s, b) ==> r.1 == lastDown[b := now]
    ensures !GetButtonDown(s, b) ==> r.1 == lastDown
    ensures |r.0| <= 3
  {
    var downs := if GetButtonDown(s, b) then [Down] else [];
    var times := if GetButtonDown(s, b) then lastDown[b := now] else lastDown;
    var rest :=
      if GetButton(s, b) then [Pressing]
      else if GetButtonUp(s, b) then
        (if b in times && now - times[b] < ClickInterval then [Up, Click] else [Up])
      else [];
    (downs + rest, times)
  }

  /** The events of the buttons `bs`, in order, tagged with their button. */
  function EventsOf(s: State, lastDown: map<bv32, real>, bs: seq<bv32>, now: real)
    : (r: (seq<(ButtonEvent, bv32)>, map<bv32, real>))
    decreases |bs|
  {
    if |bs| == 0 then ([], lastDown)
    else
      var (e1, t1) := ButtonEvents(s, lastDown, bs[0], now);
      var (rest, t2) := EventsOf(s, t1, bs[1..], now);
      (Tag(e1, bs[0]) + rest, t2)
  }

  function Tag(es: seq<ButtonEvent>, b: bv32): (r: seq<(ButtonEvent, bv32)>)
    ensures |r| == |es| && forall i :: 0 <= i < |r| ==> r[i] == (es[i], b)
  {
    seq(|es|, i requires 0 <= i < |es| => (es[i], b))
  }

  /** `CheckButtonEvents` at time `now`: updates the delta touch, then visits
      the five buttons in order, returning the listener invocations attempted
      (event and button) and the state with its press-time table updated. */
  method CheckButtonEvents(s: State, now: real) returns (fired: seq<(ButtonEvent, bv32)>, t: State)
    ensures (fired, t.lastDownTime) == EventsOf(s, s.lastDownTime, AllButtons, now)
    ensures t == UpdateDeltaTouch(s).(lastDownTime := t.lastDownTime)
  {
    var times;
    fired, times := VisitButtons(s, s.lastDownTime, AllButtons, now);
    t := UpdateDeltaTouch(s).(lastDownTime := times);
  }

  /** The loop of `CheckButtonEvents` over the buttons `bs`. */
  method VisitButtons(s: State, lastDown: map<bv32, real>, bs: seq<bv32>, now: real)
    returns (fired: seq<(ButtonEvent, bv32)>, times: map<bv32, real>)
    ensures (fired, times) == EventsOf(s, lastDown, bs, now)
  {
    times := lastDown;
    fired := [];
    var i := 0;
    ghost var whole := EventsOf(s, lastDown, bs, now);
    assert bs[0..] == bs;
    assert [] + whole.0 == whole.0;
    while i < |bs|
      invariant 0 <= i <= |bs|
      invariant whole.0 == fired + EventsOf(s, times, bs[i..], now).0
      invariant whole.1 == EventsOf(s, times, bs[i..], now).1
    {
      var b := bs[i];
      var (es, times') := ButtonEvents(s, times, b, now);
      EventsOfStep(s, times, bs, i, now);
      ghost var rest := EventsOf(s, times', bs[i + 1..], now);
      AppendAssoc(fired, Tag(es, b), rest.0);
      fired := fired + Tag(es, b);
      times := times';
      i := i + 1;
    }
    assert bs[i..] == [];
    assert fired + [] == fired;
  }

  /** One step of `EventsOf`: the events of `bs[i]`, then those of the
      buttons after it from the updated press times. */
  lemma EventsOfStep(s: State, times: map<bv32, real>, bs: seq<bv32>, i: nat, now: real)
    requires i < |bs|
    ensures var (es, times') := ButtonEvents(s, times, bs[i], now);
      var rest := EventsOf(s, times', bs[i + 1..], now);
      EventsOf(s, times, bs[i..], now) == (Tag(es, bs[i]) + rest.0, rest.1)
  {
    assert bs[i..][0] == bs[i];
    assert bs[i..][1..] == bs[i + 1..];
  }

  lemma AppendAssoc<T>(a: seq<T>, b: seq<T>, c: seq<T>)
    ensures a + (b + c) == (a + b) + c
  {
  }

  /** A held button raises Pressing and never Up or Click in the same frame. */
  lemma HeldButtonIsNotReleased(s: State, lastDown: map<bv32, real>, b: bv32, now: real)
    requires GetButton(s, b)
    ensures Pressing in ButtonEvents(s, lastDown, b, now).0
    ensures Up !in ButtonEvents(s, lastDown, b, now).0
    ensures Click !in ButtonEvents(s, lastDown, b, now).0
  {
  }

  /** A release with no press ever recorded for the button is not a click. */
  lemma NoClickWithoutPress(s: State, lastDown: map<bv32, real>, b: bv32, now: real)
    requires b !in lastDown && !GetButtonDown(s, b)
    ensures Click !in ButtonEvents(s, lastDown, b, now).0
  {
  }
}
