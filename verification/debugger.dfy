/** `NRDebugger`: the SDK's logger. A message is handed to the installed log
    helper when its level is at least the configured level; the default
    helper forwards to Unity's console and throws for levels it has no
    console call for. */
module Debugger {

  /** `LogLevel`, in its declared order. */
  datatype LogLevel = All | Debug | Info | Warning | Error | Fatal | Off {
    function Ordinal(): (r: nat)
      ensures r <= 6
    {
      match this
      case All => 0
      case Debug => 1
      case Info => 2
      case Warning => 3
      case Error => 4
      case Fatal => 5
      case Off => 6
    }

    /** `level.ToString()`. */
    function Name(): (r: string)
      ensures |r| > 0
    {
      match this
      case All => "All"
      case Debug => "Debug"
      case Info => "Info"
      case Warning => "Warning"
      case Error => "Error"
      case Fatal => "Fatal"
      case Off => "Off"
    }
  }

  /** The levels `NRDebugger` has logging methods for. */
  predicate IsMessageLevel(level: LogLevel) {
    level != All && level != Off
  }

  /** The installed `ILogHelper`: none, the default one, or one supplied by
      the application (whose behaviour is outside the model: it receives
      the level and the message). */
  datatype LogHelper = NoHelper | DefaultHelper | CustomHelper

  /** Unity's console calls. */
  datatype ConsoleKind = ConsoleLog | ConsoleWarning | ConsoleError

  /** What a logging call does. */
  datatype LogOutcome =
    | Suppressed
    | Console(kind: ConsoleKind, text: string)
    | Thrown(text: string)
    | Handed(level: LogLevel, message: string)

  /** `DefaultLogHelper.Log`: formats `[level]message`; debug and info go
      to the console's log, warnings and errors to their own calls, and
      every other level throws with the formatted text. */
  function DefaultLog(level: LogLevel, message: string): (r: LogOutcome)
    ensures r.Console? || r.Thrown?
    ensures r.Thrown? <==> level !in {Debug, Info, Warning, Error}
    ensures r.Console? ==> r.text == "[" + level.Name() + "]" + message
    ensures r.Thrown? ==> r.text == "[" + level.Name() + "]" + message
    ensures r.Console? ==> (r.kind == ConsoleWarning <==> level == Warning) && (r.kind == ConsoleError <==> level == Error)
  {
    var info := "[" + level.Name() + "]" + message;
    match level
    case Debug => Console(ConsoleLog, info)
    case Info => Console(ConsoleLog, info)
    case Warning => Console(ConsoleWarning, info)
    case Error => Console(ConsoleError, info)
    case _ => Thrown(info)
  }

  /** The logger's static state. */
  datatype Logger = Logger(helper: LogHelper, logLevel: LogLevel)

  /** The initial state: the default helper at level `Info`. */
  const InitialLogger: Logger := Logger(DefaultHelper, Info)

  /** `SetLogHelper`. */
  function SetLogHelper(d: Logger, helper: LogHelper): (r: Logger)
    ensures r.helper == helper && r.logLevel == d.logLevel
  {
    d.(helper := helper)
  }

  /** Whether a message at `level` passes the configured level. */
  predicate Passes(d: Logger, level: LogLevel) {
    d.logLevel.Ordinal() <= level.Ordinal()
  }

  /** `NRDebugger.Debug`, `Info`, `Warning`, `Error` and `Fatal` (every
      overload, with the message already formatted). The `Debug` methods
      are conditional on the `DEBUG` symbol: in other builds their calls
      are compiled away. */
  function Log(d: Logger, level: LogLevel, message: string, debugBuild: bool): (r: LogOutcome)
    requires IsMessageLevel(level)
    ensures d.helper == NoHelper ==> r == Suppressed
    ensures level == Debug && !debugBuild ==> r == Suppressed
    ensures d.helper != NoHelper && (level != Debug || debugBuild) ==> (r != Suppressed <==> Passes(d, level))
    ensures r.Handed? ==> d.helper == CustomHelper && r.level == level && r.message == message
  {
    if level == Debug && !debugBuild then Suppressed
    else if !Passes(d, level) then Suppressed
    else
      match d.helper
      case NoHelper => Suppressed
      case DefaultHelper => DefaultLog(level, message)
      case CustomHelper => Handed(level, message)
  }

  /** Level `Off` silences every logging method. */
  lemma OffSilences(d: Logger, level: LogLevel, message: string, debugBuild: bool)
    requires IsMessageLevel(level)
    requires d.logLevel == Off
    ensures Log(d, level, message, debugBuild) == Suppressed
  {
  }

  /** Lowering the configured level never silences a message that was
      logged before. */
  lemma LowerLevelLogsMore(d: Logger, lower: LogLevel, level: LogLevel, message: string, debugBuild: bool)
    requires IsMessageLevel(level)
    requires lower.Ordinal() <= d.logLevel.Ordinal()
    ensures Log(d, level, message, debugBuild) != Suppressed ==>
      Log(d.(logLevel := lower), level, message, debugBuild) == Log(d, level, message, debugBuild)
  {
  }

  /** With the default helper, a fatal message that passes the level
      throws instead of reaching the console. */
  lemma DefaultHelperThrowsOnFatal(d: Logger, message: string, debugBuild: bool)
    requires d.helper == DefaultHelper && Passes(d, Fatal)
    ensures Log(d, Fatal, message, debugBuild) == Thrown("[Fatal]" + message)
  {
  }

  /** From the initial state, info and above are logged and debug is not. */
  lemma InitialLevels(level: LogLevel, message: string, debugBuild: bool)
    requires IsMessageLevel(level)
    ensures Log(InitialLogger, level, message, debugBuild) != Suppressed <==> level != Debug
  {
  }
}
