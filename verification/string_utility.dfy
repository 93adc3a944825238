/** `StringUtility`: the null guards of its `Format` overloads, composite
    formatting itself (for placeholders of the form `{n}` and the `{{`, `}}`
    escapes), `GetFullName`, and the unit tiers of `GetByteLengthString`.
    Format arguments are given as their rendered text. */
module StringUtility {
  import opened Wrappers
  import CSharp

  /** The exceptions: the SDK's own "Format is invalid." / "Args is
      invalid." / "Type is invalid.", .NET's `FormatException`, and
      placeholders with alignment or format specifiers, which the model does
      not interpret. */
  datatype FormatError = FormatInvalid | ArgsInvalid | TypeInvalid | FormatException | SpecifierNotModelled

  /** The end of the run of decimal digits starting at `i`. */
  function DigitRunEnd(f: string, i: nat): (j: nat)
    requires i <= |f|
    ensures i <= j <= |f|
    ensures forall k :: i <= k < j ==> CSharp.IsDigit(f[k])
    ensures j < |f| ==> !CSharp.IsDigit(f[j])
    decreases |f| - i
  {
    if i == |f| || !CSharp.IsDigit(f[i]) then i else DigitRunEnd(f, i + 1)
  }

  /** The end of the run of spaces starting at `i`. */
  function SpaceRunEnd(f: string, i: nat): (j: nat)
    requires i <= |f|
    ensures i <= j <= |f|
    ensures forall k :: i <= k < j ==> f[k] == ' '
    ensures j < |f| ==> f[j] != ' '
    decreases |f| - i
  {
    if i == |f| || f[i] != ' ' then i else SpaceRunEnd(f, i + 1)
  }

  /** Composite formatting: `{n}` is replaced by argument n (spaces may
      follow the index), `{{` and `}}` stand for single braces, and any
      other brace is a `FormatException`, as is an index past the
      arguments. */
  function FormatText(f: string, args: seq<string>): (r: Result<string, FormatError>)
    decreases |f|
  {
    if |f| == 0 then Success("")
    else if f[0] == '{' then
      if |f| > 1 && f[1] == '{' then
        var rest :- FormatText(f[2..], args); Success("{" + rest)
      else
        var j := DigitRunEnd(f, 1);
        var k := SpaceRunEnd(f, j);
        if j == 1 || k == |f| then Failure(FormatException)
        else if f[k] == ',' || f[k] == ':' then Failure(SpecifierNotModelled)
        else if f[k] != '}' then Failure(FormatException)
        else
          var index := CSharp.DigitsValue(f[1..j]);
          if index >= |args| then Failure(FormatException)
          else
            var rest :- FormatText(f[k + 1..], args); Success(args[index] + rest)
    else if f[0] == '}' then
      if |f| > 1 && f[1] == '}' then
        var rest :- FormatText(f[2..], args); Success("}" + rest)
      else Failure(FormatException)
    else
      var rest :- FormatText(f[1..], args); Success([f[0]] + rest)
  }

  predicate NoBraces(s: string) {
    forall i :: 0 <= i < |s| ==> s[i] != '{' && s[i] != '}'
  }

  /** Text without braces formats to itself, whatever the arguments. */
  lemma {:induction false} PlainTextFormatsToItself(s: string, args: seq<string>)
    requires NoBraces(s)
    ensures FormatText(s, args) == Success(s)
    decreases |s|
  {
    if |s| > 0 {
      PlainTextFormatsToItself(s[1..], args);
      assert [s[0]] + s[1..] == s;
    }
  }

  /** A placeholder followed by plain text: the argument, then the text. */
  lemma PlaceholderThenText(d: char, rest: string, args: seq<string>)
    requires CSharp.IsDigit(d) && CSharp.DigitValue(d) < |args| && NoBraces(rest)
    ensures FormatText(['{', d, '}'] + rest, args) == Success(args[CSharp.DigitValue(d)] + rest)
  {
    var f := ['{', d, '}'] + rest;
    assert f[0] == '{' && f[1] == d && f[2] == '}';
    assert DigitRunEnd(f, 2) == 2;
    assert DigitRunEnd(f, 1) == 2;
    assert f[1..2] == [d];
    assert [d][..0] == [];
    assert CSharp.DigitsValue(f[1..2]) == CSharp.DigitValue(d);
    assert f[3..] == rest;
    PlainTextFormatsToItself(rest, args);
  }

  /** A space between the index and the closing brace changes nothing. */
  lemma SpaceAfterIndexIgnored(d: char, rest: string, args: seq<string>)
    requires CSharp.IsDigit(d)
    ensures FormatText(['{', d, ' ', '}'] + rest, args) == FormatText(['{', d, '}'] + rest, args)
  {
    var f := ['{', d, ' ', '}'] + rest;
    var g := ['{', d, '}'] + rest;
    assert f[1] == d && f[2] == ' ' && f[3] == '}' && g[1] == d && g[2] == '}';
    assert DigitRunEnd(f, 2) == 2 && DigitRunEnd(f, 1) == 2;
    assert DigitRunEnd(g, 2) == 2 && DigitRunEnd(g, 1) == 2;
    assert SpaceRunEnd(f, 3) == 3 && SpaceRunEnd(f, 2) == 3;
    assert SpaceRunEnd(g, 2) == 2;
    assert f[1..2] == g[1..2] && f[4..] == g[3..];
  }

  /** `Format(format, args...)` for the fixed-arity overloads: a null format
      throws before anything is formatted. */
  function Format(format: Option<string>, args: seq<string>): (r: Result<string, FormatError>)
    ensures format.None? ==> r == Failure(FormatInvalid)
    ensures format.Some? ==> r == FormatText(format.value, args)
  {
    match format
    case None => Failure(FormatInvalid)
    case Some(f) => FormatText(f, args)
  }

  /** The `params object[]` overload also rejects a null argument array, after
      the format check. */
  function FormatParams(format: Option<string>, args: Option<seq<string>>): (r: Result<string, FormatError>)
    ensures format.None? ==> r == Failure(FormatInvalid)
    ensures format.Some? && args.None? ==> r == Failure(ArgsInvalid)
    ensures format.Some? && args.Some? ==> r == Format(format, args.value)
  {
    if format.None? then Failure(FormatInvalid)
    else if args.None? then Failure(ArgsInvalid)
    else Format(format, args.value)
  }

  /** `GetFullName(type, name)`: a null type throws; a null or empty name
      gives the type's full name, any other the two joined by a dot. */
  function GetFullName(typeFullName: Option<string>, name: Option<string>): (r: Result<string, FormatError>)
    ensures typeFullName.None? ==> r == Failure(TypeInvalid)
    ensures typeFullName.Some? && (name.None? || name.value == "") ==> r == Success(typeFullName.value)
  {
    if typeFullName.None? then Failure(TypeInvalid)
    else if name.None? || name.value == "" then Success(typeFullName.value)
    else Format(Some("{0}.{1}"), [typeFullName.value, name.value])
  }

  /** A non-empty name is appended to the type's full name after a dot. */
  lemma FullNameJoinsWithDot(typeFullName: string, name: string)
    requires name != ""
    ensures GetFullName(Some(typeFullName), Some(name)) == Success(typeFullName + "." + name)
  {
    var args := [typeFullName, name];
    var tail := ".{1}";
    assert tail[1..] == ['{', '1', '}'] + "";
    PlaceholderThenText('1', "", args);
    assert CSharp.DigitValue('1') == 1 && name + "" == name;
    assert FormatText(tail[1..], args) == Success(name);
    assert tail[0] == '.';
    assert FormatText(tail, args) == Success(['.'] + name);
    assert "{0}.{1}" == ['{', '0', '}'] + tail;
    assert FormatText("{0}.{1}", args) == Success(typeFullName + (['.'] + name)) by {
      var f := ['{', '0', '}'] + tail;
      assert f[0] == '{' && f[1] == '0' && f[2] == '}';
      assert DigitRunEnd(f, 2) == 2 && DigitRunEnd(f, 1) == 2;
      assert f[1..2] == ['0'] && ['0'][..0] == [];
      assert CSharp.DigitsValue(f[1..2]) == 0;
      assert f[3..] == tail;
    }
    assert typeFullName + (['.'] + name) == typeFullName + "." + name;
  }

  /** The size units after bytes. */
  const Units: seq<string> := ["KB", "MB", "GB", "TB", "PB", "EB"]

  function Pow1024(k: nat): (p: nat)
    ensures p >= 1
  {
    if k == 0 then 1 else 1024 * Pow1024(k - 1)
  }

  lemma PowValues()
    ensures Pow1024(1) == 1024 && Pow1024(2) == 1048576 && Pow1024(3) == 1073741824
    ensures Pow1024(4) == 1099511627776 && Pow1024(5) == 1125899906842624
    ensures Pow1024(6) == 1152921504606846976
  {
  }

  /** The unit tier of a size of at least 2^10: the largest k up to 6 with
      1024^k not above it. */
  function Tier(n: int, k: nat): (t: nat)
    requires 1 <= k <= 6 && Pow1024(k) <= n
    ensures k <= t <= 6 && Pow1024(t) <= n && (t == 6 || n < Pow1024(t + 1))
    decreases 6 - k
  {
    if k == 6 || n < Pow1024(k + 1) then k else Tier(n, k + 1)
  }

  /** What `GetByteLengthString` renders: small sizes exactly, larger ones as
      a value in a unit (the value's two-decimal float rendering is not
      modelled). */
  datatype ByteLengthText = Exact(text: string) | Scaled(value: real, unit: string)

  /** `GetByteLengthString`: below 2^10 the count in bytes; otherwise the
      size divided by its tier's power of 1024, in that tier's unit. */
  function GetByteLengthString(n: int): (r: ByteLengthText)
    ensures n < 1024 ==> r == Exact(CSharp.IntToString(n) + " B")
    ensures n >= 1024 ==> (PowValues(); var k := Tier(n, 1);
      r == Scaled(n as real / Pow1024(k) as real, Units[k - 1]))
  {
    PowValues();
    if n < 1024 then Exact(CSharp.IntToString(n) + " B")
    else if n < 1048576 then Scaled(n as real / 1024.0, "KB")
    else if n < 1073741824 then Scaled(n as real / 1048576.0, "MB")
    else if n < 1099511627776 then Scaled(n as real / 1073741824.0, "GB")
    else if n < 1125899906842624 then Scaled(n as real / 1099511627776.0, "TB")
    else if n < 1152921504606846976 then Scaled(n as real / 1125899906842624.0, "PB")
    else Scaled(n as real / 1152921504606846976.0, "EB")
  }

  /** Below exabytes the scaled value lies in [1, 1024): the unit is the
      largest one that keeps the number at least 1. */
  lemma ScaledValueInRange(n: int)
    requires 1024 <= n < 1152921504606846976
    ensures GetByteLengthString(n).Scaled?
    ensures 1.0 <= GetByteLengthString(n).value < 1024.0
  {
    PowValues();
    var k := Tier(n, 1);
    assert k < 6;
    var p := Pow1024(k) as real;
    assert Pow1024(k + 1) as real == 1024.0 * p;
    DivBounds(n as real, p);
  }

  lemma DivBounds(x: real, p: real)
    requires p >= 1.0 && p <= x < 1024.0 * p
    ensures 1.0 <= x / p < 1024.0
  {
  }
}
