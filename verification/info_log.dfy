/** `ControllerInfoDisplayUI.AddExtraInfo`: the extra-information panel
    keeps a newline-separated log capped at a fixed number of lines. The
    line separator is `Environment.NewLine` on the device, a line feed. */
module InfoLog {
  import opened Strings

  const NewLine: char := '\n'
  const MaxLine: nat := 20

  /** The lines of the log; the empty (or unset) log has none. */
  function Lines(log: string): (r: seq<string>)
    ensures log != "" ==> |r| >= 1
  {
    if log == "" then [] else Split(log, NewLine)
  }

  /** Keeps at most one line too many out: drops the oldest line of a log
      that has grown past the cap. */
  function DropOverflow(lines: seq<string>): (r: seq<string>)
    ensures |lines| > MaxLine ==> r == lines[1..]
    ensures |lines| <= MaxLine ==> r == lines
  {
    if |lines| > MaxLine then lines[1..] else lines
  }

  /** `AddExtraInfo`: an empty message is ignored; the first message
      becomes the log, later ones are appended after a newline; if the log
      then has more than `MaxLine` lines, everything up to and including
      its first newline is cut. */
  function AddExtraInfo(log: string, info: string): (r: string)
    ensures info == "" ==> r == log
    ensures info != "" ==> r != ""
  {
    if info == "" then log
    else
      var s := if log == "" then info else log + [NewLine] + info;
      if |Split(s, NewLine)| > MaxLine then
        var k := IndexOf(s, [NewLine]);
        if k < 0 then s else s[k + 1..]
      else s
  }

  /** A string of more than one line has a first newline, and cutting
      through it leaves the remaining lines. */
  lemma CutFirstLine(s: string)
    requires |Split(s, NewLine)| > 1
    ensures IndexOf(s, [NewLine]) >= 0
    ensures Split(s[IndexOf(s, [NewLine]) + 1..], NewLine) == Split(s, NewLine)[1..]
  {
  }

  /** Adding a message appends its lines to the log's and drops the oldest
      line when the cap is exceeded: the order of lines is kept and only
      the first can go. */
  lemma AddExtraInfoLines(log: string, info: string)
    requires info != ""
    ensures Lines(AddExtraInfo(log, info)) == DropOverflow(Lines(log) + Split(info, NewLine))
  {
    var s := if log == "" then info else log + [NewLine] + info;
    if log != "" {
      SplitAppend(log, info, NewLine);
    }
    assert Split(s, NewLine) == Lines(log) + Split(info, NewLine);
    if |Split(s, NewLine)| > MaxLine {
      CutFirstLine(s);
    }
  }

  /** A message without a newline is one line. */
  lemma SingleLine(info: string)
    requires info != "" && !Contains(info, [NewLine])
    ensures Split(info, NewLine) == [info]
  {
  }

  /** With one-line messages, the log never holds more than `MaxLine`
      lines, and the newest message is its last line. */
  lemma AddExtraInfoBounded(log: string, info: string)
    requires |Lines(log)| <= MaxLine
    requires info != "" && !Contains(info, [NewLine])
    ensures |Lines(AddExtraInfo(log, info))| <= MaxLine
    ensures Lines(AddExtraInfo(log, info))[|Lines(AddExtraInfo(log, info))| - 1] == info
  {
    SingleLine(info);
    AddExtraInfoLines(log, info);
  }

  /** A message of many lines overflows the cap: only one line is dropped
      per message. */
  lemma MultiLineMessageOverflows(info: string)
    requires |Split(info, NewLine)| > MaxLine + 1
    ensures |Lines(AddExtraInfo("", info))| > MaxLine
  {
    AddExtraInfoLines("", info);
  }
}
