/** `AndroidGradleTemplate`: an editor-time patcher of a Gradle build file.
    Up to one patcher per kind (plugin version, dependencies to add,
    dependencies to remove, support flags) sees every line twice: once to
    gather what the file already holds, once to rewrite it. The first patcher,
    in the order the kinds were first requested, that claims a line decides
    its replacement. Reading and writing the file are left to the caller: the
    lines are an input and the rewritten lines, if the file is written, the
    output. */
module Gradle {
  import opened Wrappers
  import CSharp
  import opened Strings

  const PluginVersionToken: string := "com.android.tools.build:gradle:"
  const DepsMark: string := "**DEPS**"
  const PatchedVersion: string := "3.4.3"

  /** The exceptions that reach the model: `Substring` with a missing closing
      quote, and `Dictionary.Add` of a support token already added. */
  datatype GradleError = ArgumentOutOfRange | DuplicateKey

  // ---- int.TryParse --------------------------------------------------------

  predicate AllDigits(s: string) {
    forall i :: 0 <= i < |s| ==> CSharp.IsDigit(s[i])
  }

  /** The white space `NumberStyles.Integer` lets surround the number: the
      space and the control characters tab through carriage return. */
  predicate IsParseWhite(c: char) {
    c == ' ' || ('\t' <= c <= '\r')
  }

  /** `s` with its leading white space dropped. */
  function TrimStart(s: string): (r: string)
    ensures |r| <= |s| && r == s[|s| - |r|..]
    ensures |r| > 0 ==> !IsParseWhite(r[0])
    ensures forall i :: 0 <= i < |s| - |r| ==> IsParseWhite(s[i])
  {
    if |s| > 0 && IsParseWhite(s[0]) then TrimStart(s[1..]) else s
  }

  /** `s` with its trailing white space dropped. */
  function TrimEnd(s: string): (r: string)
    ensures |r| <= |s| && r == s[..|r|]
    ensures |r| > 0 ==> !IsParseWhite(r[|r| - 1])
    ensures forall i :: |r| <= i < |s| ==> IsParseWhite(s[i])
  {
    if |s| > 0 && IsParseWhite(s[|s| - 1]) then TrimEnd(s[..|s| - 1]) else s
  }

  /** The number text without its surrounding white space. */
  function TrimWhite(s: string): string {
    TrimEnd(TrimStart(s))
  }

  /** An optional sign and decimal digits whose value fits an `int`; anything
      else leaves 0. */
  function ParseTrimmed(s: string): (v: int)
    ensures CSharp.IsInt32(v)
  {
    var signed := |s| > 0 && (s[0] == '-' || s[0] == '+');
    var body := if signed then s[1..] else s;
    if |body| == 0 || !AllDigits(body) then 0
    else
      var n: int := CSharp.DigitsValue(body);
      var v: int := if signed && s[0] == '-' then -n else n;
      if CSharp.IsInt32(v) then v else 0
  }

  /** `int.TryParse(s, out v)` as far as the model reads it: white space
      around the number is ignored; what is left must be an optional sign and
      decimal digits whose value fits an `int`, or the result is 0. */
  function TryParseInt(s: string): (v: int)
    ensures CSharp.IsInt32(v)
  {
    ParseTrimmed(TrimWhite(s))
  }

  /** Spaces around a number do not change what it parses to. */
  lemma {:induction false} TryParseIgnoresSpaces(pre: string, t: string, post: string)
    requires forall i :: 0 <= i < |pre| ==> IsParseWhite(pre[i])
    requires forall i :: 0 <= i < |post| ==> IsParseWhite(post[i])
    requires |t| > 0 && !IsParseWhite(t[0]) && !IsParseWhite(t[|t| - 1])
    ensures TryParseInt(pre + t + post) == TryParseInt(t)
  {
    StartDropsWhite(pre, t + post);
    assert pre + t + post == pre + (t + post);
    EndDropsWhite(t, post);
    assert TrimStart(t) == t;
    assert TrimEnd(t) == t;
  }

  lemma {:induction false} StartDropsWhite(pre: string, rest: string)
    requires forall i :: 0 <= i < |pre| ==> IsParseWhite(pre[i])
    requires |rest| > 0 && !IsParseWhite(rest[0])
    ensures TrimStart(pre + rest) == rest
    decreases |pre|
  {
    if |pre| > 0 {
      assert (pre + rest)[1..] == pre[1..] + rest;
      StartDropsWhite(pre[1..], rest);
    }
  }

  lemma {:induction false} EndDropsWhite(body: string, post: string)
    requires forall i :: 0 <= i < |post| ==> IsParseWhite(post[i])
    requires |body| > 0 && !IsParseWhite(body[|body| - 1])
    ensures TrimEnd(body + post) == body
    decreases |post|
  {
    if |post| > 0 {
      var p := post[..|post| - 1];
      assert (body + post)[..|body + post| - 1] == body + p;
      EndDropsWhite(body, p);
    }
  }

  /** A decimal rendering of an `int` parses back to it. */
  lemma TryParseRoundTrip(n: nat)
    requires n < CSharp.TwoTo31
    ensures TryParseInt(CSharp.NatToString(n)) == n
  {
    var s := CSharp.NatToString(n);
    CSharp.NatToStringRoundTrip(n);
    assert CSharp.IsDigit(s[0]) && CSharp.IsDigit(s[|s| - 1]);
    assert TrimWhite(s) == s by {
      assert TrimStart(s) == s;
      assert TrimEnd(s) == s;
    }
  }

  // ---- the plugin version patcher -------------------------------------------

  /** Lexicographic order on version number lists. */
  predicate LexLess(a: seq<int>, b: seq<int>)
    decreases |a|
  {
    |a| > 0 && |b| > 0 && (a[0] < b[0] || (a[0] == b[0] && LexLess(a[1..], b[1..])))
  }

  /** The nested comparison of `ProcessLine`. */
  predicate VersionBelow(main: int, middle: int, minor: int, minMain: int, minMiddle: int, minMinor: int) {
    if main < minMain then true
    else if main == minMain then
      if middle < minMiddle then true
      else if middle == minMiddle then minor < minMinor
      else false
    else false
  }

  /** The nested comparison is the lexicographic order on the three
      numbers. */
  lemma VersionBelowIsLexLess(main: int, middle: int, minor: int, minMain: int, minMiddle: int, minMinor: int)
    ensures VersionBelow(main, middle, minor, minMain, minMiddle, minMinor)
      <==> LexLess([main, middle, minor], [minMain, minMiddle, minMinor])
  {
    var a := [main, middle, minor];
    var b := [minMain, minMiddle, minMinor];
    assert a[1..] == [middle, minor] && b[1..] == [minMiddle, minMinor];
    assert a[1..][1..] == [minor] && b[1..][1..] == [minMinor];
    assert a[1..][1..][1..] == [] && b[1..][1..][1..] == [];
    assert !LexLess(a[1..][1..][1..], b[1..][1..][1..]);
    assert LexLess(a[1..][1..], b[1..][1..]) <==> minor < minMinor;
    assert LexLess(a[1..], b[1..]) <==> middle < minMiddle || (middle == minMiddle && minor < minMinor);
  }

  /** The version text after the plugin token, up to the next quote, when the
      token occurs after the start of the line; `Failure` when no quote
      follows. */
  function VersionText(line: string): (r: Result<Option<string>, GradleError>)
    ensures IndexOf(line, PluginVersionToken) <= 0 ==> r == Success(None)
  {
    var idx := IndexOf(line, PluginVersionToken);
    if idx <= 0 then Success(None)
    else
      var subLine := line[idx + |PluginVersionToken|..];
      var quote := IndexOf(subLine, "'");
      if quote < 0 then Failure(ArgumentOutOfRange) else Success(Some(subLine[..quote]))
  }

  /** The three parsed parts of a version text. */
  function VersionNumbers(parts: seq<string>): (v: seq<int>)
    requires |parts| == 3
    ensures |v| == 3
  {
    [TryParseInt(parts[0]), TryParseInt(parts[1]), TryParseInt(parts[2])]
  }

  /** `GradlePluginVersionPatcher.ProcessLine`: a three-part version below the
      minimum is replaced, everywhere in the line, by 3.4.3. `Success(None)`
      leaves the line to the next patcher. */
  function VersionLine(minMain: int, minMiddle: int, minMinor: int, line: string): (r: Result<Option<string>, GradleError>)
    ensures r.Failure? <==> VersionText(line).Failure?
    ensures r.Success? && r.value.Some? <==>
      (&& VersionText(line).Success? && VersionText(line).value.Some?
       && |Split(VersionText(line).value.value, '.')| == 3
       && LexLess(VersionNumbers(Split(VersionText(line).value.value, '.')), [minMain, minMiddle, minMinor]))
    ensures r.Success? && r.value.Some? ==>
      |VersionText(line).value.value| > 0 && r.value.value == Replace(line, VersionText(line).value.value, PatchedVersion)
  {
    var text :- VersionText(line);
    if text.None? then Success(None)
    else
      var versions := Split(text.value, '.');
      if |versions| != 3 then Success(None)
      else
        var v := VersionNumbers(versions);
        VersionBelowIsLexLess(v[0], v[1], v[2], minMain, minMiddle, minMinor);
        if VersionBelow(v[0], v[1], v[2], minMain, minMiddle, minMinor)
        then Success(Some(Replace(line, text.value, PatchedVersion)))
        else Success(None)
  }

  // ---- the dependency patchers ----------------------------------------------

  /** Whether the line contains any of the dependencies. */
  predicate AnyContained(line: string, deps: seq<string>)
    decreases |deps|
  {
    |deps| > 0 && (Contains(line, deps[0]) || AnyContained(line, deps[1..]))
  }

  lemma {:induction false} AnyContainedIsSome(line: string, deps: seq<string>)
    ensures AnyContained(line, deps) <==> exists i :: 0 <= i < |deps| && Contains(line, deps[i])
    decreases |deps|
  {
    if |deps| > 0 {
      AnyContainedIsSome(line, deps[1..]);
      if Contains(line, deps[0]) {
        assert 0 < |deps| && Contains(line, deps[0]);
      }
      if exists i :: 0 <= i < |deps| && Contains(line, deps[i]) {
        var i :| 0 <= i < |deps| && Contains(line, deps[i]);
        if i > 0 {
          assert deps[1..][i - 1] == deps[i];
        }
      }
    }
  }

  /** `GradleAddDependenciesPatcher.PreprocessLine`: drops, keeping the order
      of the rest, the dependencies the line already contains. */
  function WithoutContained(deps: seq<string>, line: string): (r: seq<string>)
    ensures forall d :: d in r <==> d in deps && !Contains(line, d)
    ensures |r| <= |deps|
    decreases |deps|
  {
    if |deps| == 0 then []
    else (if Contains(line, deps[0]) then [] else [deps[0]]) + WithoutContained(deps[1..], line)
  }

  /** The block `GradleAddDependenciesPatcher.ProcessLine` puts in place of
      the marker line: each dependency on its own line, indented by four
      spaces, then the marker line itself. */
  function DependencyBlock(deps: seq<string>, line: string): string {
    "    " + Join("\n    ", deps) + "\n" + line
  }

  // ---- the support patcher --------------------------------------------------

  /** `GetSupportStringNotInFile`: "key=true" plus a line break for every
      token not seen in the file, each prepended to the text so far. */
  function MissingSupport(tokens: seq<string>, inFile: set<string>): (s: string)
    decreases |tokens|
  {
    if |tokens| == 0 then ""
    else
      var rest := MissingSupport(tokens[..|tokens| - 1], inFile);
      var last := tokens[|tokens| - 1];
      if last in inFile then rest else last + "=true\n" + rest
  }

  /** Nothing is prefixed exactly when every token was seen; otherwise the
      text begins with the last missing token. */
  lemma {:induction false} MissingSupportEmptyIffAllPresent(tokens: seq<string>, inFile: set<string>)
    ensures MissingSupport(tokens, inFile) == "" <==> forall i :: 0 <= i < |tokens| ==> tokens[i] in inFile
    decreases |tokens|
  {
    if |tokens| > 0 {
      var k := |tokens| - 1;
      MissingSupportEmptyIffAllPresent(tokens[..k], inFile);
      assert forall i :: 0 <= i < k ==> tokens[..k][i] == tokens[i];
      if tokens[k] !in inFile {
        assert |tokens[k] + "=true\n" + MissingSupport(tokens[..k], inFile)| > 0;
      }
    }
  }

  /** The first token, in the order they were added, that was seen in the
      file and occurs in this line. */
  function FirstPresent(tokens: seq<string>, inFile: set<string>, line: string): (k: Option<string>)
    ensures k.Some? ==> k.value in tokens && k.value in inFile && Contains(line, k.value)
    ensures k.None? <==> forall i :: 0 <= i < |tokens| ==> !(tokens[i] in inFile && Contains(line, tokens[i]))
    decreases |tokens|
  {
    if |tokens| == 0 then None
    else if tokens[0] in inFile && Contains(line, tokens[0]) then Some(tokens[0])
    else
      var r := FirstPresent(tokens[1..], inFile, line);
      assert forall i :: 1 <= i < |tokens| ==> tokens[1..][i - 1] == tokens[i];
      r
  }

  // ---- patchers and the template --------------------------------------------

  /** `EPatcherType` without its unused `EPT_NONE`. */
  datatype PatcherType = PluginVersionType | AddDependenciesType | RemoveDependenciesType | AddSupportType

  /** The four patchers and their state. */
  datatype Patcher =
    | PluginVersion(major: int, middle: int, minor: int)
    | AddDependencies(dependencies: seq<string>)
    | RemoveDependencies(removed: seq<string>)
    | AddSupport(tokens: seq<string>, inFile: set<string>, isFirst: bool)

  function TypeOf(p: Patcher): PatcherType {
    match p
    case PluginVersion(_, _, _) => PluginVersionType
    case AddDependencies(_) => AddDependenciesType
    case RemoveDependencies(_) => RemoveDependenciesType
    case AddSupport(_, _, _) => AddSupportType
  }

  /** A patcher as its parameterless constructor leaves it. */
  function FreshPatcher(t: PatcherType): (p: Patcher)
    ensures TypeOf(p) == t
  {
    match t
    case PluginVersionType => PluginVersion(0, 0, 0)
    case AddDependenciesType => AddDependencies([])
    case RemoveDependenciesType => RemoveDependencies([])
    case AddSupportType => AddSupport([], {}, true)
  }

  /** The patcher dictionary, in the order its entries were added (nothing
      is ever removed, so that is the order it enumerates in). */
  datatype Template = Template(patchers: seq<Patcher>)

  function Types(ps: seq<Patcher>): (ts: seq<PatcherType>)
    ensures |ts| == |ps| && forall i :: 0 <= i < |ps| ==> ts[i] == TypeOf(ps[i])
  {
    seq(|ps|, i requires 0 <= i < |ps| => TypeOf(ps[i]))
  }

  /** Support tokens are distinct and only added tokens are marked as
      seen. */
  predicate PatcherValid(p: Patcher) {
    p.AddSupport? ==>
      && (forall a, b :: 0 <= a < b < |p.tokens| ==> p.tokens[a] != p.tokens[b])
      && forall k :: k in p.inFile ==> k in p.tokens
  }

  predicate AllValid(ps: seq<Patcher>) {
    forall i :: 0 <= i < |ps| ==> PatcherValid(ps[i])
  }

  predicate DistinctTypes(ts: seq<PatcherType>) {
    forall i, j :: 0 <= i < j < |ts| ==> ts[i] != ts[j]
  }

  /** What the template keeps true: one patcher per kind, each valid. */
  predicate Valid(t: Template) {
    DistinctTypes(Types(t.patchers)) && AllValid(t.patchers)
  }

  /** The position of the patcher of a kind. */
  function Find(ps: seq<Patcher>, t: PatcherType): (i: Option<nat>)
    ensures i.Some? ==> i.value < |ps| && TypeOf(ps[i.value]) == t
    ensures i.None? ==> forall j :: 0 <= j < |ps| ==> TypeOf(ps[j]) != t
    decreases |ps|
  {
    if |ps| == 0 then None
    else if TypeOf(ps[0]) == t then Some(0)
    else match Find(ps[1..], t)
      case None => None
      case Some(j) => Some(j + 1)
  }

  /** `GetOrAddPatcher`: the existing patcher of the kind, or a fresh one
      added at the end. */
  function GetOrAddPatcher(t: Template, kind: PatcherType): (r: (Template, nat))
    ensures r.1 < |r.0.patchers| && TypeOf(r.0.patchers[r.1]) == kind
    ensures Find(t.patchers, kind).Some? ==> r.0 == t
    ensures Find(t.patchers, kind).None? ==> r.0.patchers == t.patchers + [FreshPatcher(kind)]
    ensures Valid(t) ==> Valid(r.0)
  {
    match Find(t.patchers, kind)
    case Some(i) => (t, i)
    case None => (Template(t.patchers + [FreshPatcher(kind)]), |t.patchers|)
  }

  /** Replaces the patcher at `i` by one of the same kind. */
  function Put(t: Template, i: nat, p: Patcher): (r: Template)
    requires i < |t.patchers| && TypeOf(p) == TypeOf(t.patchers[i])
    ensures Types(r.patchers) == Types(t.patchers)
  {
    Template(t.patchers[i := p])
  }

  /** `SetMinPluginVersion`. */
  function SetMinPluginVersion(t: Template, major: int, middle: int, minor: int): (r: Template)
    ensures Valid(t) ==> Valid(r)
    ensures exists i :: 0 <= i < |r.patchers| && r.patchers[i] == PluginVersion(major, middle, minor)
  {
    var (t1, i) := GetOrAddPatcher(t, PluginVersionType);
    Put(t1, i, PluginVersion(major, middle, minor))
  }

  /** `AddDenpendency`: appends to the list of dependencies to add. */
  function AddDependency(t: Template, dependency: string): (r: Template)
    ensures Valid(t) ==> Valid(r)
    ensures exists i :: 0 <= i < |r.patchers| && r.patchers[i].AddDependencies? && dependency in r.patchers[i].dependencies
  {
    var (t1, i) := GetOrAddPatcher(t, AddDependenciesType);
    var p := t1.patchers[i];
    Put(t1, i, AddDependencies(p.dependencies + [dependency]))
  }

  /** `RemoveDependency`: appends to the list of dependencies to remove. */
  function RemoveDependency(t: Template, dependency: string): (r: Template)
    ensures Valid(t) ==> Valid(r)
    ensures exists i :: 0 <= i < |r.patchers| && r.patchers[i].RemoveDependencies? && dependency in r.patchers[i].removed
  {
    var (t1, i) := GetOrAddPatcher(t, RemoveDependenciesType);
    var p := t1.patchers[i];
    Put(t1, i, RemoveDependencies(p.removed + [dependency]))
  }

  /** `AddSupport`: registers a token as not yet seen; adding the same token
      twice throws from `Dictionary.Add` and changes nothing. */
  function AddSupportToken(t: Template, keyToken: string): (r: Result<Template, GradleError>)
    ensures Valid(t) && r.Success? ==> Valid(r.value)
    ensures r.Failure? <==> var i := Find(t.patchers, AddSupportType); i.Some? && keyToken in t.patchers[i.value].tokens
    ensures r.Failure? && Valid(t) ==> exists i :: 0 <= i < |t.patchers| && t.patchers[i].AddSupport? && keyToken in t.patchers[i].tokens
    ensures r.Success? ==> exists i :: 0 <= i < |r.value.patchers| && r.value.patchers[i].AddSupport? && keyToken in r.value.patchers[i].tokens
  {
    var (t1, i) := GetOrAddPatcher(t, AddSupportType);
    var p := t1.patchers[i];
    if keyToken in p.tokens then Failure(DuplicateKey)
    else
      var r := Put(t1, i, AddSupport(p.tokens + [keyToken], p.inFile, p.isFirst));
      assert r.patchers[i].tokens == p.tokens + [keyToken];
      Success(r)
  }

  // ---- the two passes -------------------------------------------------------

  /** `PreprocessLine` of each patcher. */
  function PreprocessLine(p: Patcher, line: string): (r: Patcher)
    ensures TypeOf(r) == TypeOf(p)
    ensures PatcherValid(p) ==> PatcherValid(r)
  {
    match p
    case AddDependencies(deps) => AddDependencies(WithoutContained(deps, line))
    case AddSupport(tokens, inFile, isFirst) =>
      AddSupport(tokens, inFile + (set k | k in tokens && Contains(line, k)), isFirst)
    case _ => p
  }

  /** The first pass for one patcher. Patchers do not share state, so
      running each over all lines is the same as running all over each
      line. */
  function PreprocessLines(p: Patcher, lines: seq<string>): (r: Patcher)
    ensures TypeOf(r) == TypeOf(p)
    ensures PatcherValid(p) ==> PatcherValid(r)
    decreases |lines|
  {
    if |lines| == 0 then p else PreprocessLines(PreprocessLine(p, lines[0]), lines[1..])
  }

  /** After the first pass a dependency still waits to be added exactly when
      no line of the file contains it. */
  lemma {:induction false} PreprocessedDependencies(deps: seq<string>, lines: seq<string>)
    ensures PreprocessLines(AddDependencies(deps), lines).AddDependencies?
    ensures forall d :: d in PreprocessLines(AddDependencies(deps), lines).dependencies <==>
      d in deps && forall j :: 0 <= j < |lines| ==> !Contains(lines[j], d)
    decreases |lines|
  {
    if |lines| > 0 {
      var next := WithoutContained(deps, lines[0]);
      PreprocessedDependencies(next, lines[1..]);
      assert forall j :: 1 <= j < |lines| ==> lines[1..][j - 1] == lines[j];
    }
  }

  /** After the first pass a support token counts as seen exactly when it
      was seen before or some line contains it. */
  lemma {:induction false} PreprocessedSupport(tokens: seq<string>, inFile: set<string>, isFirst: bool, lines: seq<string>)
    ensures var r := PreprocessLines(AddSupport(tokens, inFile, isFirst), lines);
      && r == AddSupport(tokens, r.inFile, isFirst)
      && forall k :: k in r.inFile <==> k in inFile || (k in tokens && exists j :: 0 <= j < |lines| && Contains(lines[j], k))
    decreases |lines|
  {
    if |lines| > 0 {
      var next := inFile + (set k | k in tokens && Contains(lines[0], k));
      PreprocessedSupport(tokens, next, isFirst, lines[1..]);
      forall k | k in tokens && (exists j :: 0 <= j < |lines| && Contains(lines[j], k)) && !Contains(lines[0], k)
        ensures exists j :: 0 <= j < |lines[1..]| && Contains(lines[1..][j], k)
      {
        var j :| 0 <= j < |lines| && Contains(lines[j], k);
        assert lines[1..][j - 1] == lines[j];
      }
      forall k | k in tokens && (exists j :: 0 <= j < |lines[1..]| && Contains(lines[1..][j], k))
        ensures exists j :: 0 <= j < |lines| && Contains(lines[j], k)
      {
        var j :| 0 <= j < |lines[1..]| && Contains(lines[1..][j], k);
        assert Contains(lines[j + 1], k);
      }
    }
  }

  function PreprocessAll(ps: seq<Patcher>, lines: seq<string>): (r: seq<Patcher>)
    ensures Types(r) == Types(ps)
    ensures AllValid(ps) ==> AllValid(r)
  {
    seq(|ps|, i requires 0 <= i < |ps| => PreprocessLines(ps[i], lines))
  }

  /** One patcher's `ProcessLine`: the patcher afterwards, whether it
      claimed the line, and the line's replacement so far (`None` for a
      deleted line). */
  datatype Step = Step(patcher: Patcher, handled: bool, newLine: Option<string>)

  function ProcessLine(p: Patcher, line: string, newLine: Option<string>): (r: Result<Step, GradleError>)
    ensures r.Success? ==> TypeOf(r.value.patcher) == TypeOf(p)
    ensures r.Success? && PatcherValid(p) ==> PatcherValid(r.value.patcher)
    ensures r.Failure? ==> p.PluginVersion?
    ensures r.Success? && !p.AddSupport? ==> r.value.patcher == p && (r.value.handled || r.value.newLine == newLine)
  {
    match p
    case PluginVersion(major, middle, minor) =>
      var v :- VersionLine(major, middle, minor, line);
      if v.Some? then Success(Step(p, true, v)) else Success(Step(p, false, newLine))
    case AddDependencies(deps) =>
      if |deps| > 0 && Contains(line, DepsMark) then Success(Step(p, true, Some(DependencyBlock(deps, line))))
      else Success(Step(p, false, newLine))
    case RemoveDependencies(removed) =>
      if AnyContained(line, removed) then Success(Step(p, true, None)) else Success(Step(p, false, newLine))
    case AddSupport(tokens, inFile, isFirst) =>
      var prefix := if isFirst then MissingSupport(tokens, inFile) else "";
      var after := AddSupport(tokens, inFile, false);
      match FirstPresent(tokens, inFile, line)
      case Some(k) => Success(Step(after, true, Some(prefix + k + "=true")))
      case None => Success(Step(after, false, Some(prefix + line)))
  }

  /** Offers the line to each patcher in turn until one claims it; a patcher
      that declines leaves the replacement as it was, except the support
      patcher, which always writes it. */
  function ProcessPatchers(ps: seq<Patcher>, line: string, newLine: Option<string>): (r: (seq<Patcher>, Result<Option<string>, GradleError>))
    ensures Types(r.0) == Types(ps)
    ensures AllValid(ps) ==> AllValid(r.0)
    decreases |ps|
  {
    if |ps| == 0 then ([], Success(newLine))
    else match ProcessLine(ps[0], line, newLine)
      case Failure(e) => (ps, Failure(e))
      case Success(step) =>
        if step.handled then
          ConsKeepsTypes(ps, step.patcher, ps[1..]);
          ([step.patcher] + ps[1..], Success(step.newLine))
        else
          var (rest, out) := ProcessPatchers(ps[1..], line, step.newLine);
          ConsKeepsTypes(ps, step.patcher, rest);
          ([step.patcher] + rest, out)
  }

  /** Replacing the first patcher by one of its kind, and the rest by
      patchers of theirs, keeps the kinds; validity carries over too. */
  lemma ConsKeepsTypes(ps: seq<Patcher>, p: Patcher, rest: seq<Patcher>)
    requires |ps| > 0 && TypeOf(p) == TypeOf(ps[0]) && Types(rest) == Types(ps[1..])
    ensures Types([p] + rest) == Types(ps)
    ensures PatcherValid(p) && AllValid(rest) ==> AllValid([p] + rest)
  {
    var q := [p] + rest;
    assert forall i :: 1 <= i < |q| ==> q[i] == rest[i - 1];
    assert forall i :: 1 <= i < |ps| ==> Types(ps)[i] == Types(ps[1..])[i - 1];
  }

  /** The second pass over all lines; a deleted line is left out. */
  function ProcessLines(ps: seq<Patcher>, lines: seq<string>): (r: (seq<Patcher>, Result<seq<string>, GradleError>))
    ensures Types(r.0) == Types(ps)
    ensures AllValid(ps) ==> AllValid(r.0)
    ensures r.1.Success? ==> |r.1.value| <= |lines|
    decreases |lines|
  {
    if |lines| == 0 then (ps, Success([]))
    else
      var (ps1, first) := ProcessPatchers(ps, lines[0], Some(lines[0]));
      if first.Failure? then (ps1, Failure(first.error))
      else
        var (ps2, rest) := ProcessLines(ps1, lines[1..]);
        if rest.Failure? then (ps2, rest)
        else (ps2, Success((if first.value.Some? then [first.value.value] else []) + rest.value))
  }

  /** `PreprocessGradleFile`: nothing happens without patchers; otherwise the
      two passes run and the file is rewritten with the result. An exception
      in the second pass is caught and logged and the file is left as it was,
      though the patchers keep what the passes changed in them. */
  function PreprocessGradleFile(t: Template, lines: seq<string>): (r: (Template, Option<seq<string>>))
    ensures |t.patchers| == 0 ==> r == (t, None)
    ensures Types(r.0.patchers) == Types(t.patchers)
    ensures Valid(t) ==> Valid(r.0)
  {
    if |t.patchers| == 0 then (t, None)
    else
      var pre := PreprocessAll(t.patchers, lines);
      var (ps, out) := ProcessLines(pre, lines);
      (Template(ps), if out.Success? then Some(out.value) else None)
  }

  // ---- what the passes do ---------------------------------------------------

  /** The first patcher that claims the line decides it: patchers before it
      that decline (none of them the support patcher) leave the line alone,
      and patchers after it are not asked. */
  lemma {:induction false} FirstClaimDecides(ps: seq<Patcher>, line: string, i: nat)
    requires i < |ps|
    requires forall j :: 0 <= j < i ==>
      (!ps[j].AddSupport? && ProcessLine(ps[j], line, Some(line)).Success? && !ProcessLine(ps[j], line, Some(line)).value.handled)
    requires ProcessLine(ps[i], line, Some(line)).Success? && ProcessLine(ps[i], line, Some(line)).value.handled
    ensures ProcessPatchers(ps, line, Some(line)).1 == Success(ProcessLine(ps[i], line, Some(line)).value.newLine)
    decreases i
  {
    if i > 0 {
      FirstClaimDecides(ps[1..], line, i - 1);
    }
  }

  /** A line offered to a single patcher gets that patcher's answer. */
  lemma SinglePatcher(p: Patcher, line: string)
    requires ProcessLine(p, line, Some(line)).Success?
    ensures var step := ProcessLine(p, line, Some(line)).value;
      ProcessPatchers([p], line, Some(line)) == ([step.patcher], Success(step.newLine))
  {
    var step := ProcessLine(p, line, Some(line)).value;
    assert [p][1..] == [];
    assert [step.patcher] + [] == [step.patcher];
  }

  /** The lines that contain none of the removed dependencies, in order. */
  function KeptLines(lines: seq<string>, removed: seq<string>): (kept: seq<string>)
    decreases |lines|
  {
    if |lines| == 0 then []
    else (if AnyContained(lines[0], removed) then [] else [lines[0]]) + KeptLines(lines[1..], removed)
  }

  /** A file patched only to remove dependencies loses exactly the lines
      that mention one of them. */
  lemma {:induction false} RemovingDeletesMentioningLines(removed: seq<string>, lines: seq<string>)
    ensures ProcessLines([RemoveDependencies(removed)], lines) == ([RemoveDependencies(removed)], Success(KeptLines(lines, removed)))
    ensures PreprocessGradleFile(Template([RemoveDependencies(removed)]), lines).1 == Some(KeptLines(lines, removed))
    decreases |lines|
  {
    if |lines| > 0 {
      RemovingDeletesMentioningLines(removed, lines[1..]);
      SinglePatcher(RemoveDependencies(removed), lines[0]);
    }
    var ps := [RemoveDependencies(removed)];
    assert PreprocessLines(ps[0], lines) == ps[0] by {
      PreprocessKeepsRemovals(removed, lines);
    }
    assert PreprocessAll(ps, lines) == ps;
  }

  lemma {:induction false} PreprocessKeepsRemovals(removed: seq<string>, lines: seq<string>)
    ensures PreprocessLines(RemoveDependencies(removed), lines) == RemoveDependencies(removed)
    decreases |lines|
  {
    if |lines| > 0 {
      PreprocessKeepsRemovals(removed, lines[1..]);
    }
  }

  /** Each line of a file patched only to add dependencies: a line with the
      marker gets the block of still-missing dependencies in front of it,
      when there are any; every other line is kept. */
  function AddedLines(pending: seq<string>, lines: seq<string>): (out: seq<string>)
    ensures |out| == |lines|
    ensures forall i :: 0 <= i < |lines| && !(|pending| > 0 && Contains(lines[i], DepsMark)) ==> out[i] == lines[i]
    decreases |lines|
  {
    if |lines| == 0 then []
    else
      var first := if |pending| > 0 && Contains(lines[0], DepsMark) then DependencyBlock(pending, lines[0]) else lines[0];
      var rest := AddedLines(pending, lines[1..]);
      assert forall i :: 1 <= i < |lines| ==> lines[1..][i - 1] == lines[i];
      [first] + rest
  }

  lemma {:induction false} AddingPass(pending: seq<string>, lines: seq<string>)
    ensures ProcessLines([AddDependencies(pending)], lines) == ([AddDependencies(pending)], Success(AddedLines(pending, lines)))
    decreases |lines|
  {
    if |lines| > 0 {
      AddingPass(pending, lines[1..]);
      SinglePatcher(AddDependencies(pending), lines[0]);
    }
  }

  /** A file patched only to add dependencies keeps every line, and puts
      the dependencies no line mentions before each marker line. */
  lemma AddingInsertsBeforeMarker(deps: seq<string>, lines: seq<string>)
    ensures var pending := PreprocessLines(AddDependencies(deps), lines);
      && pending.AddDependencies?
      && PreprocessGradleFile(Template([AddDependencies(deps)]), lines).1 == Some(AddedLines(pending.dependencies, lines))
  {
    PreprocessedDependencies(deps, lines);
    var pending := PreprocessLines(AddDependencies(deps), lines);
    assert PreprocessAll([AddDependencies(deps)], lines) == [pending];
    AddingPass(pending.dependencies, lines);
  }

  /** How the support patcher rewrites a line after the first: a line with
      a seen token becomes "token=true", any other is kept. */
  function SupportLine(tokens: seq<string>, inFile: set<string>, line: string): string {
    match FirstPresent(tokens, inFile, line)
    case Some(k) => k + "=true"
    case None => line
  }

  function SupportLines(tokens: seq<string>, inFile: set<string>, lines: seq<string>): (out: seq<string>)
    ensures |out| == |lines|
    decreases |lines|
  {
    if |lines| == 0 then [] else [SupportLine(tokens, inFile, lines[0])] + SupportLines(tokens, inFile, lines[1..])
  }

  lemma {:induction false} SupportPass(tokens: seq<string>, inFile: set<string>, lines: seq<string>)
    ensures ProcessLines([AddSupport(tokens, inFile, false)], lines)
      == ([AddSupport(tokens, inFile, false)], Success(SupportLines(tokens, inFile, lines)))
    decreases |lines|
  {
    if |lines| > 0 {
      SupportPass(tokens, inFile, lines[1..]);
      SupportStep(tokens, inFile, false, lines[0]);
      assert "" + SupportLine(tokens, inFile, lines[0]) == SupportLine(tokens, inFile, lines[0]);
      SinglePatcher(AddSupport(tokens, inFile, false), lines[0]);
    }
  }

  /** One support step: the missing flags when it is the first line, then
      the rewritten or kept line. */
  lemma SupportStep(tokens: seq<string>, inFile: set<string>, isFirst: bool, line: string)
    ensures ProcessLine(AddSupport(tokens, inFile, isFirst), line, Some(line))
      == Success(Step(AddSupport(tokens, inFile, false), FirstPresent(tokens, inFile, line).Some?,
           Some((if isFirst then MissingSupport(tokens, inFile) else "") + SupportLine(tokens, inFile, line))))
  {
    var prefix := if isFirst then MissingSupport(tokens, inFile) else "";
    match FirstPresent(tokens, inFile, line)
    case Some(k) =>
      assert prefix + k + "=true" == prefix + (k + "=true");
    case None =>
  }

  /** The whole second pass of a support patcher that has not yet seen a
      line. */
  lemma FirstSupportPass(tokens: seq<string>, seen: set<string>, lines: seq<string>)
    requires |lines| > 0
    ensures ProcessLines([AddSupport(tokens, seen, true)], lines).1
      == Success([MissingSupport(tokens, seen) + SupportLine(tokens, seen, lines[0])] + SupportLines(tokens, seen, lines[1..]))
  {
    var first := MissingSupport(tokens, seen) + SupportLine(tokens, seen, lines[0]);
    SupportStep(tokens, seen, true, lines[0]);
    SinglePatcher(AddSupport(tokens, seen, true), lines[0]);
    SupportPass(tokens, seen, lines[1..]);
  }

  /** A file patched only for support flags: the flags of missing tokens go
      in front of the first line only, and each line with a seen token is
      rewritten to "token=true". */
  lemma SupportPrefixesFirstLine(tokens: seq<string>, inFile: set<string>, lines: seq<string>)
    requires |lines| > 0
    ensures var seen := PreprocessLines(AddSupport(tokens, inFile, true), lines).inFile;
      PreprocessGradleFile(Template([AddSupport(tokens, inFile, true)]), lines).1
        == Some([MissingSupport(tokens, seen) + SupportLine(tokens, seen, lines[0])] + SupportLines(tokens, seen, lines[1..]))
  {
    PreprocessedSupport(tokens, inFile, true, lines);
    var pre := PreprocessLines(AddSupport(tokens, inFile, true), lines);
    var seen := pre.inFile;
    assert PreprocessAll([AddSupport(tokens, inFile, true)], lines) == [AddSupport(tokens, seen, true)];
    FirstSupportPass(tokens, seen, lines);
  }
}
