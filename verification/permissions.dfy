/** `AndroidPermissionsRequestResult`: the names asked for and whether each
    was granted. Either array may be null. */
module Permissions {
  import opened Wrappers

  datatype RequestResult = RequestResult(permissionNames: Option<seq<string>>, grantResults: Option<seq<bool>>)

  /** The constructor stores both arrays as given. */
  function NewRequestResult(names: Option<seq<string>>, grants: Option<seq<bool>>): (r: RequestResult)
    ensures r.permissionNames == names && r.grantResults == grants
  {
    RequestResult(names, grants)
  }

  /** `IsAllGranted`: false when either array is null; otherwise whether no
      grant result is false (so true for an empty request). Only the grant
      array is scanned, whatever the names array holds. */
  method IsAllGranted(r: RequestResult) returns (all: bool)
    ensures all <==> r.permissionNames.Some? && r.grantResults.Some?
                     && forall i :: 0 <= i < |r.grantResults.value| ==> r.grantResults.value[i]
  {
    if r.permissionNames.None? || r.grantResults.None? {
      return false;
    }
    var grants := r.grantResults.value;
    var i := 0;
    while i < |grants|
      invariant 0 <= i <= |grants|
      invariant forall j :: 0 <= j < i ==> grants[j]
    {
      if !grants[i] {
        return false;
      }
      i := i + 1;
    }
    return true;
  }

  /** The exceptions `ToString` can throw. */
  datatype ToStringError = NullReference | IndexOutOfRange

  /** C#'s `bool.ToString()`. */
  function BoolText(b: bool): string {
    if b then "True" else "False"
  }

  /** One line of the summary. */
  function Line(name: string, granted: bool): string {
    "Name:" + name + " GrantResult:" + BoolText(granted) + "\n"
  }

  /** The summary lines for the first `|names|` grants. */
  function Lines(names: seq<string>, grants: seq<bool>): (s: string)
    requires |names| <= |grants|
    decreases |names|
  {
    if |names| == 0 then "" else Lines(names[..|names| - 1], grants) + Line(names[|names| - 1], grants[|names| - 1])
  }

  /** `ToString`: one line per permission name, pairing it with the grant at
      the same index. A null names array throws; a grant array shorter than
      the names throws when the loop reaches its end (a null one as soon as
      there is a name). */
  method ToString(r: RequestResult) returns (s: Result<string, ToStringError>)
    ensures r.permissionNames.None? ==> s == Failure(NullReference)
    ensures r.permissionNames.Some? && |r.permissionNames.value| > 0 && r.grantResults.None? ==> s == Failure(NullReference)
    ensures s.Success? <==> (r.permissionNames.Some?
      && (|r.permissionNames.value| == 0 || (r.grantResults.Some? && |r.permissionNames.value| <= |r.grantResults.value|)))
    ensures s.Success? && r.grantResults.Some? ==> s.value == Lines(r.permissionNames.value, r.grantResults.value)
    ensures s.Success? && r.grantResults.None? ==> s.value == ""
  {
    if r.permissionNames.None? {
      return Failure(NullReference);
    }
    var names := r.permissionNames.value;
    if |names| == 0 {
      return Success("");
    }
    if r.grantResults.None? {
      return Failure(NullReference);
    }
    var grants := r.grantResults.value;
    var st := "";
    var i := 0;
    while i < |names|
      invariant 0 <= i <= |names|
      invariant i <= |grants|
      invariant st == Lines(names[..i], grants)
    {
      if i >= |grants| {
        return Failure(IndexOutOfRange);
      }
      assert names[..i + 1][..i] == names[..i];
      st := st + Line(names[i], grants[i]);
      i := i + 1;
    }
    assert names[..i] == names;
    return Success(st);
  }

  function CountChar(s: string, c: char): (n: nat)
    ensures n <= |s|
    decreases |s|
  {
    if |s| == 0 then 0 else CountChar(s[..|s| - 1], c) + (if s[|s| - 1] == c then 1 else 0)
  }

  lemma {:induction false} CountCharAppend(a: string, b: string, c: char)
    ensures CountChar(a + b, c) == CountChar(a, c) + CountChar(b, c)
    decreases |b|
  {
    if |b| == 0 {
      assert a + b == a;
    } else {
      assert (a + b)[..|a + b| - 1] == a + b[..|b| - 1];
      CountCharAppend(a, b[..|b| - 1], c);
    }
  }

  lemma {:induction false} CountCharAbsent(s: string, c: char)
    requires forall i :: 0 <= i < |s| ==> s[i] != c
    ensures CountChar(s, c) == 0
    decreases |s|
  {
    if |s| > 0 {
      CountCharAbsent(s[..|s| - 1], c);
    }
  }

  /** A line holds one break, its last character, when the name has none. */
  lemma LineHasOneBreak(name: string, granted: bool)
    requires CountChar(name, '\n') == 0
    ensures CountChar(Line(name, granted), '\n') == 1
  {
    var head := "Name:";
    var tail := " GrantResult:" + BoolText(granted);
    assert Line(name, granted) == head + name + tail + "\n";
    CountCharAbsent(head, '\n');
    CountCharAbsent(tail, '\n');
    CountCharAppend(head, name, '\n');
    CountCharAppend(head + name, tail, '\n');
    CountCharAppend(head + name + tail, "\n", '\n');
    assert CountChar("\n", '\n') == 1 by {
      assert "\n"[..0] == "";
    }
  }

  /** When no permission name contains a line break, the summary has exactly
      one line per name. */
  lemma {:induction false} OneLinePerName(names: seq<string>, grants: seq<bool>)
    requires |names| <= |grants|
    requires forall i :: 0 <= i < |names| ==> CountChar(names[i], '\n') == 0
    ensures CountChar(Lines(names, grants), '\n') == |names|
    decreases |names|
  {
    if |names| > 0 {
      var k := |names| - 1;
      PrefixHasNoBreaks(names, k);
      OneLinePerName(names[..k], grants);
      LineHasOneBreak(names[k], grants[k]);
      AppendOneLine(Lines(names, grants), Lines(names[..k], grants), Line(names[k], grants[k]), k);
    }
  }

  lemma PrefixHasNoBreaks(names: seq<string>, k: nat)
    requires k <= |names|
    requires forall i :: 0 <= i < |names| ==> CountChar(names[i], '\n') == 0
    ensures forall i :: 0 <= i < k ==> CountChar(names[..k][i], '\n') == 0
  {
    assert forall i :: 0 <= i < k ==> names[..k][i] == names[i];
  }

  /** A string made of a prefix with `n` breaks and a one-break line has
      `n + 1` breaks. */
  lemma AppendOneLine(whole: string, prefix: string, line: string, n: nat)
    requires whole == prefix + line
    requires CountChar(prefix, '\n') == n && CountChar(line, '\n') == 1
    ensures CountChar(whole, '\n') == n + 1
  {
    CountCharAppend(prefix, line, '\n');
  }
}
