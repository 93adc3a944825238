/** The phone-screen controller's wire state, `SystemButtonState`, and its
    conversion to the controller-side `SystemInputState`. Touch coordinates
    cross the wire as the bit patterns of 32-bit floats; the model keeps
    them as those `int` bit patterns, since reinterpreting bits as a float
    is not arithmetic the model needs. */
module PhoneScreen {
  import opened Wrappers
  import CSharp
  import opened Bytes

  /** `SystemButtonState`: buttons in the order APP, TRIGGER (touch), HOME. */
  datatype ButtonState = ButtonState(buttons: seq<bool>, touchX: int, touchY: int)

  predicate Valid(s: ButtonState) {
    |s.buttons| == 3
  }

  /** A new state: three released buttons, zero touch. */
  function NewButtonState(): (s: ButtonState)
    ensures Valid(s) && s == Reset(s)
  {
    ButtonState([false, false, false], 0, 0)
  }

  /** `Reset`: every button released and the touch at zero. */
  function Reset(s: ButtonState): (s': ButtonState)
    requires Valid(s)
    ensures Valid(s')
    ensures forall i :: 0 <= i < 3 ==> !s'.buttons[i]
    ensures s'.touchX == 0 && s'.touchY == 0
  {
    ButtonState([false, false, false], 0, 0)
  }

  /** `Set`: the APP, touch and HOME buttons go to slots 0, 1, 2. */
  function Set(s: ButtonState, btnApp: bool, btnTouch: bool, btnHome: bool, touchX: int, touchY: int): (s': ButtonState)
    requires Valid(s)
    ensures Valid(s')
    ensures s'.buttons[0] == btnApp && s'.buttons[1] == btnTouch && s'.buttons[2] == btnHome
    ensures s'.touchX == touchX && s'.touchY == touchY
  {
    ButtonState([btnApp, btnTouch, btnHome], touchX, touchY)
  }

  /** `SystemInputState`: buttons in the order TRIGGER, APP, HOME. */
  datatype InputState = InputState(buttons: seq<bool>, touchX: int, touchY: int)

  /** `TransformTo`: fills the given state, or a fresh one when it is null,
      swapping the first two buttons into the controller's order. */
  function TransformTo(s: ButtonState, target: Option<InputState>): (u: InputState)
    requires Valid(s)
    requires target.Some? ==> |target.value.buttons| == 3
    ensures |u.buttons| == 3
    ensures u.buttons[0] == s.buttons[1] && u.buttons[1] == s.buttons[0] && u.buttons[2] == s.buttons[2]
    ensures u.touchX == s.touchX && u.touchY == s.touchY
  {
    var base := target.GetOr(InputState([false, false, false], 0, 0));
    base.(buttons := [s.buttons[1], s.buttons[0], s.buttons[2]], touchX := s.touchX, touchY := s.touchY)
  }

  /** Transforming reverses the APP/TRIGGER swap of `Set`: a touch passed to
      `Set` arrives as the trigger, the app button as APP. */
  lemma SetThenTransform(s: ButtonState, app: bool, touch: bool, home: bool, x: int, y: int)
    requires Valid(s)
    ensures var u := TransformTo(Set(s, app, touch, home, x, y), None);
      u.buttons == [touch, app, home] && u.touchX == x && u.touchY == y
  {
  }

  /** The exceptions decoding can throw: an index past the array,
      `BitConverter`'s start index not inside the array, or too few bytes after
      it. */
  datatype DecodeError = IndexOutOfRange | StartIndexOutOfRange | TooShortForInt32

  /** `BitConverter.ToInt32(data, start)` on a little-endian machine. */
  function ToInt32At(data: seq<Byte>, start: nat): (r: Result<int, DecodeError>)
    ensures r.Success? <==> start + 4 <= |data|
    ensures r.Failure? && start >= |data| ==> r.error == StartIndexOutOfRange
    ensures r.Success? ==> CSharp.IsInt32(r.value)
  {
    if start >= |data| then Failure(StartIndexOutOfRange)
    else if start > |data| - 4 then Failure(TooShortForInt32)
    else
      Success(CSharp.ToInt32(data[start] as int + 0x100 * data[start + 1] as int
                             + 0x1_0000 * data[start + 2] as int + 0x100_0000 * data[start + 3] as int))
  }

  /** `DeSerialize`: bytes 0..2 are the buttons (non-zero is pressed),
      bytes 3..6 and 7..10 the touch bit patterns. The state is updated in
      place, so a short array leaves the fields before the failing read
      already written. */
  function DeSerialize(s: ButtonState, data: seq<Byte>): (r: (ButtonState, Result<(), DecodeError>))
    requires Valid(s)
    ensures Valid(r.0)
    ensures r.1.Success? <==> |data| >= 11
    ensures forall i :: 0 <= i < 3 && i < |data| ==> r.0.buttons[i] == (data[i] != 0)
    ensures forall i :: |data| <= i < 3 ==> r.0.buttons[i] == s.buttons[i]
    ensures |data| < 7 ==> r.0.touchX == s.touchX
    ensures |data| < 11 ==> r.0.touchY == s.touchY
    ensures |data| < 3 ==> r.1 == Failure(IndexOutOfRange)
  {
    if |data| < 1 then (s, Failure(IndexOutOfRange))
    else
      var b0 := s.(buttons := s.buttons[0 := data[0] != 0]);
      if |data| < 2 then (b0, Failure(IndexOutOfRange))
      else
        var b1 := b0.(buttons := b0.buttons[1 := data[1] != 0]);
        if |data| < 3 then (b1, Failure(IndexOutOfRange))
        else
          var b2 := b1.(buttons := b1.buttons[2 := data[2] != 0]);
          match ToInt32At(data, 3)
          case Failure(e) => (b2, Failure(e))
          case Success(x) =>
            var t := b2.(touchX := x);
            match ToInt32At(data, 7)
            case Failure(e) => (t, Failure(e))
            case Success(y) => (t.(touchY := y), Success(()))
  }

  /** The four little-endian bytes of a 32-bit value, as the phone side
      writes them. */
  function Int32Bytes(x: int): (b: seq<Byte>)
    requires CSharp.IsInt32(x)
    ensures |b| == 4
  {
    var u := if x < 0 then x + CSharp.TwoTo32 else x;
    [(u % 0x100) as Byte, (u / 0x100 % 0x100) as Byte, (u / 0x1_0000 % 0x100) as Byte, (u / 0x100_0000) as Byte]
  }

  /** The eleven-byte message for a state: one byte per button, then the two
      touch patterns. */
  function Serialize(s: ButtonState): (data: seq<Byte>)
    requires Valid(s) && CSharp.IsInt32(s.touchX) && CSharp.IsInt32(s.touchY)
    ensures |data| == 11
  {
    [if s.buttons[0] then 1 else 0, if s.buttons[1] then 1 else 0, if s.buttons[2] then 1 else 0]
      + Int32Bytes(s.touchX) + Int32Bytes(s.touchY)
  }

  /** Reading the four bytes of a 32-bit value back gives the value. */
  lemma Int32BytesRoundTrip(x: int, pre: seq<Byte>, post: seq<Byte>)
    requires CSharp.IsInt32(x)
    ensures ToInt32At(pre + Int32Bytes(x) + post, |pre|) == Success(x)
  {
    var u := if x < 0 then x + CSharp.TwoTo32 else x;
    var b := Int32Bytes(x);
    var d := pre + b + post;
    var n := |pre|;
    assert d[n] == b[0] && d[n + 1] == b[1] && d[n + 2] == b[2] && d[n + 3] == b[3];
    LittleEndianDigits(u);
    assert b[0] as int + 0x100 * b[1] as int + 0x1_0000 * b[2] as int + 0x100_0000 * b[3] as int == u;
    assert CSharp.ToInt32(u) == x;
  }

  /** The four base-256 digits of a 32-bit pattern put back together. */
  lemma LittleEndianDigits(u: int)
    requires 0 <= u < CSharp.TwoTo32
    ensures u % 0x100 + 0x100 * (u / 0x100 % 0x100) + 0x1_0000 * (u / 0x1_0000 % 0x100) + 0x100_0000 * (u / 0x100_0000) == u
  {
    var a := u / 0x100;
    var c := a / 0x100;
    assert u == u % 0x100 + 0x100 * a;
    assert a == a % 0x100 + 0x100 * c;
    assert c == c % 0x100 + 0x100 * (c / 0x100);
    assert u / 0x1_0000 == c;
    assert u / 0x100_0000 == c / 0x100;
  }

  /** Decoding a serialized state restores it, whatever the state decoded
      into held before. */
  lemma DeSerializeRoundTrip(s: ButtonState, into: ButtonState)
    requires Valid(s) && Valid(into) && CSharp.IsInt32(s.touchX) && CSharp.IsInt32(s.touchY)
    ensures DeSerialize(into, Serialize(s)) == (s, Success(()))
  {
    var data := Serialize(s);
    var head: seq<Byte> := [if s.buttons[0] then 1 else 0, if s.buttons[1] then 1 else 0, if s.buttons[2] then 1 else 0];
    assert data == head + Int32Bytes(s.touchX) + Int32Bytes(s.touchY) + [];
    Int32BytesRoundTrip(s.touchX, head, Int32Bytes(s.touchY));
    Int32BytesRoundTrip(s.touchY, head + Int32Bytes(s.touchX), []);
    var r := DeSerialize(into, data);
    assert r.0.buttons == s.buttons;
  }
}
