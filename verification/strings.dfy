/** The ordinal string operations of .NET the model relies on: `IndexOf`,
    `Contains`, `Split(char)`, `string.Join` and `Replace`. */
module Strings {
  /** `t` occurs in `s` at index `j`. */
  predicate MatchAt(s: string, t: string, j: int) {
    0 <= j && j + |t| <= |s| && s[j..j + |t|] == t
  }

  /** The first occurrence of `t` in `s` at or after `i`, or -1. */
  function IndexOfFrom(s: string, t: string, i: nat): (r: int)
    requires i <= |s|
    ensures r == -1 || (i <= r && MatchAt(s, t, r))
    ensures forall j :: i <= j && (r == -1 || j < r) ==> !MatchAt(s, t, j)
    decreases |s| - i
  {
    if i + |t| > |s| then -1
    else if s[i..i + |t|] == t then i
    else IndexOfFrom(s, t, i + 1)
  }

  /** `s.IndexOf(t)` (ordinal): the first occurrence, or -1. */
  function IndexOf(s: string, t: string): (r: int)
    ensures r == -1 || MatchAt(s, t, r)
    ensures forall j :: 0 <= j && (r == -1 || j < r) ==> !MatchAt(s, t, j)
  {
    IndexOfFrom(s, t, 0)
  }

  /** `s.Contains(t)`. */
  predicate Contains(s: string, t: string) {
    IndexOf(s, t) >= 0
  }

  /** Containment is having `t` as a slice somewhere. */
  lemma ContainsIsSlice(s: string, t: string, j: int)
    requires MatchAt(s, t, j)
    ensures Contains(s, t)
  {
  }

  /** Every string contains itself with anything around it. */
  lemma ContainsInfix(a: string, t: string, b: string)
    ensures Contains(a + t + b, t)
  {
    var s := a + t + b;
    assert s[|a|..|a| + |t|] == t;
    ContainsIsSlice(s, t, |a|);
  }

  /** `s.Split(c)`: the pieces between occurrences of `c`, empty pieces
      included. */
  function Split(s: string, c: char): (parts: seq<string>)
    ensures |parts| >= 1
    ensures |s| == 0 ==> parts == [""]
    decreases |s|
  {
    var k := IndexOf(s, [c]);
    if k < 0 then [s] else [s[..k]] + Split(s[k + 1..], c)
  }

  /** `string.Join(sep, parts)`. */
  function Join(sep: string, parts: seq<string>): (s: string)
    decreases |parts|
  {
    if |parts| == 0 then "" else if |parts| == 1 then parts[0] else parts[0] + sep + Join(sep, parts[1..])
  }

  /** Joining a first piece onto at least one more puts the separator
      between them. */
  lemma JoinCons(sep: string, x: string, ps: seq<string>)
    requires |ps| >= 1
    ensures Join(sep, [x] + ps) == x + sep + Join(sep, ps)
  {
    assert ([x] + ps)[1..] == ps;
  }

  /** A string is the part before a separator, the separator and the part
      after it. */
  lemma SeparatorSplits(s: string, c: char, k: int)
    requires MatchAt(s, [c], k)
    ensures s == s[..k] + [c] + s[k + 1..]
  {
    assert s[k..k + 1] == [c];
  }

  /** Joining the pieces of a split with the separator gives back the
      original string. */
  lemma {:induction false} SplitJoin(s: string, c: char)
    ensures Join([c], Split(s, c)) == s
    decreases |s|
  {
    var k := IndexOf(s, [c]);
    if k >= 0 {
      var rest := s[k + 1..];
      SplitJoin(rest, c);
      SplitAt(s, c, k);
      JoinCons([c], s[..k], Split(rest, c));
      SeparatorSplits(s, c, k);
    }
  }

  /** The first match is the one `IndexOf` finds. */
  lemma IndexOfIs(s: string, t: string, k: int)
    requires MatchAt(s, t, k)
    requires forall j :: 0 <= j < k ==> !MatchAt(s, t, j)
    ensures IndexOf(s, t) == k
  {
  }

  /** A string without `t` has no match of `t`, and `IndexOf` says so. */
  lemma NoMatchIndexOf(s: string, t: string)
    requires forall j :: 0 <= j ==> !MatchAt(s, t, j)
    ensures IndexOf(s, t) == -1
  {
  }

  /** Matches of a single character inside a prefix do not see what
      follows it. */
  lemma MatchInPrefix(a: string, x: string, c: char, j: int)
    requires 0 <= j < |a|
    ensures MatchAt(a + x, [c], j) <==> MatchAt(a, [c], j)
  {
    assert (a + x)[j..j + 1] == a[j..j + 1];
  }

  /** One step of `Split` at a known first separator. */
  lemma SplitAt(s: string, c: char, k: int)
    requires 0 <= k && IndexOf(s, [c]) == k
    ensures Split(s, c) == [s[..k]] + Split(s[k + 1..], c)
  {
  }

  /** The first separator of `a + [c] + b` is the first one of `a`, or the
      one joining them. */
  lemma FirstSeparatorOfAppend(a: string, b: string, c: char)
    ensures IndexOf(a, [c]) >= 0 ==> IndexOf(a + [c] + b, [c]) == IndexOf(a, [c])
    ensures IndexOf(a, [c]) < 0 ==> IndexOf(a + [c] + b, [c]) == |a|
  {
    var s := a + [c] + b;
    var k0 := IndexOf(a, [c]);
    forall j | 0 <= j < |a| ensures MatchAt(s, [c], j) <==> MatchAt(a, [c], j) {
      assert s == a + ([c] + b);
      MatchInPrefix(a, [c] + b, c, j);
    }
    if k0 >= 0 {
      IndexOfIs(s, [c], k0);
    } else {
      assert s[|a|..|a| + 1] == [c];
      IndexOfIs(s, [c], |a|);
    }
  }

  /** Splitting two strings joined by the separator splits each. */
  lemma {:induction false} SplitAppend(a: string, b: string, c: char)
    ensures Split(a + [c] + b, c) == Split(a, c) + Split(b, c)
    decreases |a|
  {
    var s := a + [c] + b;
    var k0 := IndexOf(a, [c]);
    FirstSeparatorOfAppend(a, b, c);
    if k0 >= 0 {
      var a' := a[k0 + 1..];
      InnerSlices(a, b, c, k0);
      SplitAt(s, c, k0);
      SplitAt(a, c, k0);
      SplitAppend(a', b, c);
      ConsAssoc(a[..k0], Split(a', c), Split(b, c));
    } else {
      OuterSlices(a, b, c);
      SplitAt(s, c, |a|);
    }
  }

  /** Around a separator inside `a`, the slices of `a + [c] + b`. */
  lemma InnerSlices(a: string, b: string, c: char, k: int)
    requires 0 <= k < |a|
    ensures (a + [c] + b)[..k] == a[..k]
    ensures (a + [c] + b)[k + 1..] == a[k + 1..] + [c] + b
  {
  }

  /** Around the joining separator, the slices of `a + [c] + b`. */
  lemma OuterSlices(a: string, b: string, c: char)
    ensures (a + [c] + b)[..|a|] == a
    ensures (a + [c] + b)[|a| + 1..] == b
  {
  }

  lemma ConsAssoc<T>(x: T, p: seq<T>, q: seq<T>)
    ensures [x] + p + q == [x] + (p + q)
  {
  }

  /** No piece of a split contains the separator. */
  lemma {:induction false} SplitPiecesHaveNoSeparator(s: string, c: char)
    ensures forall i :: 0 <= i < |Split(s, c)| ==> !Contains(Split(s, c)[i], [c])
    decreases |s|
  {
    var k := IndexOf(s, [c]);
    if k >= 0 {
      var rest := s[k + 1..];
      SplitPiecesHaveNoSeparator(rest, c);
      var head := s[..k];
      assert !Contains(head, [c]) by {
        forall j | 0 <= j
          ensures !MatchAt(head, [c], j)
        {
          if j < |head| {
            assert head[j..j + 1] == s[j..j + 1];
            assert !MatchAt(s, [c], j);
          }
        }
      }
      assert Split(s, c) == [head] + Split(rest, c);
    }
  }

  /** `s.Replace(oldValue, newValue)`: every occurrence, scanning left to right, with
      matches not overlapping. */
  function Replace(s: string, oldValue: string, newValue: string): (r: string)
    requires |oldValue| > 0
    ensures !Contains(s, oldValue) ==> r == s
    decreases |s|
  {
    var i := IndexOf(s, oldValue);
    if i < 0 then s else s[..i] + newValue + Replace(s[i + |oldValue|..], oldValue, newValue)
  }
}
