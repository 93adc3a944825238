/** The SDK's error hierarchy (`NRKernalError` and its subclasses), their
    severity levels and messages, and `NativeErrorListener.Check`, which turns
    a native result code into one of those errors. */
module KernalErrors {
  import CSharp

  /** `NativeResult`, with its numeric values. */
  datatype NativeResult =
    | Success | Failure | InvalidArgument | NotEnoughMemory | UnSupported | GlassesDisconnect
    | SdkVersionMismatch | SdcardPermissionDeny | RGBCameraDeviceNotFind | DPDeviceNotFind
    | TrackingNotRunning | GetDisplayFailure | GetDisplayModeMismatch | InTheCoolDown
    | UnSupportedHandtrackingCalculation | Busy | Processing | NumberLimited | DisplayNoInStereoMode
    | InvalidData | NotFindRuntime
    | ControlChannelInternalError | ControlChannelInitFail | ControlChannelStartFail
    | ImuChannelInternalError | ImuChannelInitFail | ImuChannelStartFail | ImuChannelFrequencyCritical
    | DisplayControlChannelInternalError | DisplayControlChannelInitFail
    | DisplayControlChannelStartFail | DisplayControlChannelFrequencyCritical

  function ResultCode(r: NativeResult): (c: nat) {
    match r
    case Success => 0
    case Failure => 1
    case InvalidArgument => 2
    case NotEnoughMemory => 3
    case UnSupported => 4
    case GlassesDisconnect => 5
    case SdkVersionMismatch => 6
    case SdcardPermissionDeny => 7
    case RGBCameraDeviceNotFind => 8
    case DPDeviceNotFind => 9
    case TrackingNotRunning => 10
    case GetDisplayFailure => 11
    case GetDisplayModeMismatch => 12
    case InTheCoolDown => 13
    case UnSupportedHandtrackingCalculation => 14
    case Busy => 15
    case Processing => 16
    case NumberLimited => 17
    case DisplayNoInStereoMode => 18
    case InvalidData => 19
    case NotFindRuntime => 20
    case ControlChannelInternalError => 100
    case ControlChannelInitFail => 101
    case ControlChannelStartFail => 102
    case ImuChannelInternalError => 200
    case ImuChannelInitFail => 201
    case ImuChannelStartFail => 202
    case ImuChannelFrequencyCritical => 203
    case DisplayControlChannelInternalError => 300
    case DisplayControlChannelInitFail => 301
    case DisplayControlChannelStartFail => 302
    case DisplayControlChannelFrequencyCritical => 303
  }

  /** Distinct results have distinct codes. */
  lemma ResultCodeInjective(a: NativeResult, b: NativeResult)
    ensures ResultCode(a) == ResultCode(b) ==> a == b
  {
  }

  /** `Level`. */
  datatype Level = High | Normal

  /** The concrete error classes. The three base classes take their level
      from the constructor; every subclass fixes it. */
  datatype ErrorClass =
    | KernalErrorBase | NativeErrorBase | InternalErrorBase
    | InvalidArgumentError | NotEnoughMemoryError | SdcardPermissionDenyError | UnSupportedError
    | GlassesConnectError | SdkVersionMismatchError | RGBCameraDeviceNotFindError
    | DPDeviceNotFindError | GetDisplayFailureError | DisplayModeMismatchError
    | UnSupportedHandtrackingCalculationError | RuntimeNotFoundError
    | MissingKeyComponentError | PermissionDenyError | UnSupportDeviceError | GlassesNotAvailbleError

  /** The classes deriving from `NRNativeError`, which carry a result code. */
  predicate IsNative(c: ErrorClass) {
    c in {NativeErrorBase, InvalidArgumentError, NotEnoughMemoryError, SdcardPermissionDenyError,
          UnSupportedError, GlassesConnectError, SdkVersionMismatchError, RGBCameraDeviceNotFindError,
          DPDeviceNotFindError, GetDisplayFailureError, DisplayModeMismatchError,
          UnSupportedHandtrackingCalculationError, RuntimeNotFoundError}
  }

  predicate IsBase(c: ErrorClass) {
    c == KernalErrorBase || c == NativeErrorBase || c == InternalErrorBase
  }

  /** The level each subclass's constructor passes up. */
  function FixedLevel(c: ErrorClass): Level
    requires !IsBase(c)
  {
    match c
    case InvalidArgumentError => Normal
    case RGBCameraDeviceNotFindError => Normal
    case UnSupportedHandtrackingCalculationError => Normal
    case PermissionDenyError => Normal
    case _ => High
  }

  /** An error object: its class, level, message and (for native errors) the
      result it reports. */
  datatype KernalError = KernalError(cls: ErrorClass, level: Level, msg: string, result: NativeResult)

  /** Constructing an error: a base class takes the given level (the
      default is Normal), any subclass its own fixed level. */
  function NewError(c: ErrorClass, result: NativeResult, msg: string, level: Level): (e: KernalError)
    ensures e.cls == c && e.msg == msg && e.result == result
    ensures IsBase(c) ==> e.level == level
    ensures !IsBase(c) ==> e.level == FixedLevel(c)
  {
    KernalError(c, if IsBase(c) then level else FixedLevel(c), msg, result)
  }

  /** Exactly four subclasses are Normal; all others are High. */
  lemma NormalSubclasses(c: ErrorClass)
    requires !IsBase(c)
    ensures NewError(c, Success, "", High).level == Normal <==>
      c in {InvalidArgumentError, RGBCameraDeviceNotFindError, UnSupportedHandtrackingCalculationError, PermissionDenyError}
  {
  }

  const ErrorCodePrefix: string := "Error Code-"

  /** `GetErrorMsg`: a native error prefixes its code, other errors give
      their message as is. */
  function GetErrorMsg(e: KernalError): (m: string)
    ensures !IsNative(e.cls) ==> m == e.msg
    ensures IsNative(e.cls) ==>
      var digits := CSharp.NatToString(ResultCode(e.result));
      m == ErrorCodePrefix + digits + ": " + e.msg
  {
    if IsNative(e.cls) then ErrorCodePrefix + CSharp.IntToString(ResultCode(e.result)) + ": " + e.msg
    else e.msg
  }

  /** The code written into a native error's message reads back as the
      error's result. */
  lemma ErrorMsgCarriesCode(e: KernalError)
    requires IsNative(e.cls)
    ensures var m := GetErrorMsg(e);
      var n := |CSharp.NatToString(ResultCode(e.result))|;
      var digits := m[|ErrorCodePrefix|..|ErrorCodePrefix| + n];
      && m[..|ErrorCodePrefix|] == ErrorCodePrefix
      && (forall i :: 0 <= i < |digits| ==> CSharp.IsDigit(digits[i]))
      && CSharp.DigitsValue(digits) == ResultCode(e.result)
  {
    var d := CSharp.NatToString(ResultCode(e.result));
    var m := GetErrorMsg(e);
    assert m == ErrorCodePrefix + d + (": " + e.msg);
    assert m[|ErrorCodePrefix|..|ErrorCodePrefix| + |d|] == d;
    CSharp.NatToStringRoundTrip(ResultCode(e.result));
  }

  /** The error class `Check` raises for a result, none for results it only
      logs. */
  function ClassForResult(r: NativeResult): (c: ErrorClass)
    requires r != Success
    ensures IsNative(c) <==> IsMapped(r)
  {
    match r
    case Failure => NativeErrorBase
    case InvalidArgument => InvalidArgumentError
    case NotEnoughMemory => NotEnoughMemoryError
    case UnSupported => UnSupportedError
    case GlassesDisconnect => GlassesConnectError
    case ControlChannelInternalError => GlassesConnectError
    case ControlChannelInitFail => GlassesConnectError
    case ControlChannelStartFail => GlassesConnectError
    case ImuChannelInternalError => GlassesConnectError
    case ImuChannelInitFail => GlassesConnectError
    case ImuChannelStartFail => GlassesConnectError
    case ImuChannelFrequencyCritical => GlassesConnectError
    case DisplayControlChannelInternalError => GlassesConnectError
    case DisplayControlChannelInitFail => GlassesConnectError
    case DisplayControlChannelStartFail => GlassesConnectError
    case DisplayControlChannelFrequencyCritical => GlassesConnectError
    case SdkVersionMismatch => SdkVersionMismatchError
    case SdcardPermissionDeny => SdcardPermissionDenyError
    case RGBCameraDeviceNotFind => RGBCameraDeviceNotFindError
    case DPDeviceNotFind => DPDeviceNotFindError
    case GetDisplayFailure => GetDisplayFailureError
    case GetDisplayModeMismatch => DisplayModeMismatchError
    case DisplayNoInStereoMode => DisplayModeMismatchError
    case UnSupportedHandtrackingCalculation => UnSupportedHandtrackingCalculationError
    case NotFindRuntime => RuntimeNotFoundError
    case _ => KernalErrorBase
  }

  /** The results `Check` maps to an error class; the rest only get logged. */
  predicate IsMapped(r: NativeResult) {
    !(r.Success? || r.TrackingNotRunning? || r.InTheCoolDown? || r.Busy? || r.Processing? || r.NumberLimited?
      || r.InvalidData?)
  }

  /** What `Check` does with a result. `Handled` means the error is queued
      for the session manager's `HandleKernalError`, and `rethrown` that it
      is also thrown to the caller. */
  datatype CheckOutcome = NoEffect | Logged | Handled(error: KernalError, rethrown: bool)

  /** The prefix `Check` puts before every message: the module's type name in
      brackets, then the function name and a colon. */
  function ModuleTag(typeName: string, funcName: string): string
  {
    "[" + typeName + "] " + funcName + ": "
  }

  /** The text `Check` appends to the module tag; it depends only on the
      class the result maps to. */
  function ClassText(c: ErrorClass): string
    requires IsNative(c)
  {
    match c
    case NativeErrorBase => "Failed!"
    case InvalidArgumentError => "InvalidArgument error!"
    case NotEnoughMemoryError => "NotEnoughMemory error!"
    case UnSupportedError => "UnSupported error!"
    case GlassesConnectError => "Glasses connect error!"
    case SdkVersionMismatchError => "SDK version mismatch error!"
    case SdcardPermissionDenyError => "Sdcard permission deny error!"
    case RGBCameraDeviceNotFindError => "Can not find the rgb camera device error!"
    case DPDeviceNotFindError => "Display device Not Find!"
    case GetDisplayFailureError => "MRSpace display device Not Find!"
    case DisplayModeMismatchError => "Display mode mismatch, as MRSpace mode is needed!"
    case UnSupportedHandtrackingCalculationError => "Not support hand tracking calculation!"
    case RuntimeNotFoundError => "Not found sdk runtime!"
  }

  /** `NativeErrorListener.Check`: success does nothing; without
      `needThrowError` a failure is only logged; otherwise a mapped result
      becomes its error, whose message is the module tag of `typeName` and
      `funcName` followed by the result's text, handed to the session manager
      and rethrown only when High; an unmapped one is logged. */
  function Check(r: NativeResult, typeName: string, funcName: string, needThrowError: bool): (o: CheckOutcome)
    ensures r == Success <==> o == NoEffect
    ensures r != Success && !needThrowError ==> o == Logged
    ensures r != Success && needThrowError ==> (o.Handled? <==> IsMapped(r))
    ensures o.Handled? ==>
      && o.error.cls == ClassForResult(r) && IsNative(o.error.cls)
      && o.error.result == r
      && o.error.msg == ModuleTag(typeName, funcName) + ClassText(ClassForResult(r))
      && (o.rethrown <==> o.error.level == High)
  {
    if r == Success then NoEffect
    else if !needThrowError || !IsMapped(r) then Logged
    else
      var c := ClassForResult(r);
      var e := NewError(c, r, ModuleTag(typeName, funcName) + ClassText(c), Normal);
      Handled(e, e.level == High)
  }

  /** Every glasses, control-, IMU- and display-channel result becomes a
      glasses-connect error, which is High and so rethrown. */
  lemma GlassesResultsAreConnectErrors(r: NativeResult, typeName: string, funcName: string)
    requires r in {GlassesDisconnect, ControlChannelInternalError, ControlChannelInitFail, ControlChannelStartFail,
                   ImuChannelInternalError, ImuChannelInitFail, ImuChannelStartFail, ImuChannelFrequencyCritical,
                   DisplayControlChannelInternalError, DisplayControlChannelInitFail,
                   DisplayControlChannelStartFail, DisplayControlChannelFrequencyCritical}
    ensures Check(r, typeName, funcName, true) ==
      Handled(KernalError(GlassesConnectError, High, ModuleTag(typeName, funcName) + "Glasses connect error!", r), true)
  {
    assert IsMapped(r) && ClassForResult(r) == GlassesConnectError;
    var msg := ModuleTag(typeName, funcName) + ClassText(GlassesConnectError);
    var e := NewError(GlassesConnectError, r, msg, Normal);
    assert e == KernalError(GlassesConnectError, High, msg, r);
    assert Check(r, typeName, funcName, true) == Handled(e, true);
  }

  /** Both display-mode results become display-mode-mismatch errors. */
  lemma DisplayModeResults(r: NativeResult, typeName: string, funcName: string)
    requires r == GetDisplayModeMismatch || r == DisplayNoInStereoMode
    ensures Check(r, typeName, funcName, true) ==
      Handled(KernalError(DisplayModeMismatchError, High,
        ModuleTag(typeName, funcName) + "Display mode mismatch, as MRSpace mode is needed!", r), true)
  {
  }

  /** A plain failure is a Normal native error: handed on but not rethrown. */
  lemma FailureIsNotRethrown(typeName: string, funcName: string)
    ensures Check(Failure, typeName, funcName, true) ==
      Handled(KernalError(NativeErrorBase, Normal, ModuleTag(typeName, funcName) + "Failed!", Failure), false)
  {
  }
}
