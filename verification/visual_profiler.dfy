/** The arithmetic of `NRVisualProfiler`: the allocation-free integer
    rendering `MemoryItoA`, the megabyte conversion and the clamped window
    settings. */
module VisualProfiler {
  import opened Wrappers
  import CSharp

  /** The character `MemoryItoA` writes for `value % 10`: `(char)(d) + '0'`
      cast back to `char`. For a negative value the truncated remainder is
      negative and the characters fall just below '0'. */
  function DigitOf(v: int): (c: char)
    ensures v >= 0 ==> c == CSharp.DigitChar(v % 10)
  {
    (CSharp.Rem(v, 10) + '0' as int) as char
  }

  /** The characters the first loop writes, least significant digit first,
      while `value /= 10` (truncating) has not reached zero. */
  function LsbDigits(v: int): (s: seq<char>)
    decreases if v < 0 then -v else v
  {
    if v == 0 then [] else [DigitOf(v)] + LsbDigits(CSharp.Div(v, 10))
  }

  function Reverse<T>(s: seq<T>): (r: seq<T>)
    ensures |r| == |s|
    ensures forall i :: 0 <= i < |s| ==> r[i] == s[|s| - 1 - i]
  {
    if |s| == 0 then [] else Reverse(s[1..]) + [s[0]]
  }

  /** For a positive value, the reversed digits are its decimal rendering. */
  lemma {:induction false} LsbDigitsReversed(v: int)
    requires v > 0
    ensures Reverse(LsbDigits(v)) == CSharp.NatToString(v)
    decreases v
  {
    var d := [DigitOf(v)];
    if v < 10 {
      assert LsbDigits(v) == d + LsbDigits(0);
      assert LsbDigits(v) == d;
    } else {
      LsbDigitsReversed(v / 10);
      var rest := LsbDigits(v / 10);
      assert LsbDigits(v) == d + rest;
      assert Reverse(d + rest) == Reverse(rest) + d;
    }
  }

  /** The index exception of a write past the buffer. */
  datatype IndexError = IndexOutOfRange

  /** The first loop of `MemoryItoA`: the digits, least significant first,
      from `start` on, or the index exception once a write falls outside the
      buffer. */
  method WriteLsbDigits(value: int, buffer: seq<char>, start: int) returns (buffer': seq<char>, r: Result<int, IndexError>)
    ensures |buffer'| == |buffer|
    ensures r.Success? <==> value == 0 || (0 <= start && start + |LsbDigits(value)| <= |buffer|)
    ensures value == 0 ==> r == Success(start) && buffer' == buffer
    ensures r.Success? && value != 0 ==>
      && 0 <= start && r.value == start + |LsbDigits(value)| <= |buffer|
      && buffer'[start..r.value] == LsbDigits(value)
    ensures forall k :: 0 <= k < |buffer| && (k < start || (r.Success? && k >= r.value)) ==> buffer'[k] == buffer[k]
  {
    var digits := LsbDigits(value);
    buffer' := buffer;
    var index := start;
    var v := value;
    while v != 0
      invariant start <= index && |buffer'| == |buffer|
      invariant index == start || (0 <= start && index <= |buffer|)
      invariant index - start <= |digits| && digits[index - start..] == LsbDigits(v)
      invariant forall k :: start <= k < index ==> buffer'[k] == digits[k - start]
      invariant forall k :: 0 <= k < |buffer| && !(start <= k < index) ==> buffer'[k] == buffer[k]
      decreases if v < 0 then -v else v
    {
      assert LsbDigits(v) == [DigitOf(v)] + LsbDigits(CSharp.Div(v, 10));
      if !(0 <= index < |buffer'|) {
        return buffer', Failure(IndexOutOfRange);
      }
      buffer' := buffer'[index := DigitOf(v)];
      index := index + 1;
      v := CSharp.Div(v, 10);
    }
    assert LsbDigits(v) == [];
    WrittenRange(buffer', digits, start, index);
    return buffer', Success(index);
  }

  /** A range written entry by entry from `digits` holds `digits`. */
  lemma WrittenRange(buffer': seq<char>, digits: seq<char>, start: int, index: int)
    requires start <= index && index - start == |digits|
    requires index == start || (0 <= start && index <= |buffer'|)
    requires forall k :: start <= k < index ==> buffer'[k] == digits[k - start]
    ensures index > start ==> buffer'[start..index] == digits
  {
    if index > start {
      forall k | 0 <= k < |digits|
        ensures buffer'[start..index][k] == digits[k]
      {
        assert buffer'[start..index][k] == buffer'[start + k];
      }
    }
  }

  /** The second loop of `MemoryItoA`: swaps from both ends inwards until
      they meet, reversing `buffer[lo..hi]` in place. */
  method ReverseRange(buffer: seq<char>, lo: int, hi: int) returns (buffer': seq<char>)
    requires 0 <= lo <= hi <= |buffer|
    ensures |buffer'| == |buffer|
    ensures buffer'[lo..hi] == Reverse(buffer[lo..hi])
    ensures forall k :: 0 <= k < |buffer| && !(lo <= k < hi) ==> buffer'[k] == buffer[k]
  {
    buffer' := buffer;
    var i := lo;
    var j := hi - 1;
    while i < j
      invariant lo <= i <= hi && lo - 1 <= j < hi && i + j == lo + hi - 1
      invariant |buffer'| == |buffer|
      invariant forall k :: lo <= k < i ==> buffer'[k] == buffer[lo + hi - 1 - k]
      invariant forall k :: j < k < hi ==> buffer'[k] == buffer[lo + hi - 1 - k]
      invariant forall k :: i <= k <= j ==> buffer'[k] == buffer[k]
      invariant forall k :: 0 <= k < |buffer| && !(lo <= k < hi) ==> buffer'[k] == buffer[k]
    {
      var temp := buffer'[i];
      buffer' := buffer'[i := buffer'[j]][j := temp];
      i := i + 1;
      j := j - 1;
    }
    MirroredIsReverse(buffer, buffer', lo, hi);
  }

  /** A range whose every entry mirrors the original one is its reversal. */
  lemma MirroredIsReverse(buffer: seq<char>, buffer': seq<char>, lo: int, hi: int)
    requires 0 <= lo <= hi <= |buffer| == |buffer'|
    requires forall k :: lo <= k < hi ==> buffer'[k] == buffer[lo + hi - 1 - k]
    ensures buffer'[lo..hi] == Reverse(buffer[lo..hi])
  {
    var rev := Reverse(buffer[lo..hi]);
    forall k | 0 <= k < hi - lo
      ensures buffer'[lo..hi][k] == rev[k]
    {
      assert buffer'[lo..hi][k] == buffer'[lo + k];
    }
  }

  /** `MemoryItoA(value, buffer, start)`: writes the digits of a positive
      value at `start`, most significant first, and returns the index after
      them; zero writes nothing. A buffer too short for the digits throws. */
  method MemoryItoA(value: int, buffer: seq<char>, start: int) returns (buffer': seq<char>, r: Result<int, IndexError>)
    ensures |buffer'| == |buffer|
    ensures r.Success? <==> value == 0 || (0 <= start && start + |LsbDigits(value)| <= |buffer|)
    ensures value == 0 ==> r == Success(start) && buffer' == buffer
    ensures r.Success? && value > 0 ==>
      && 0 <= start && r.value == start + |CSharp.NatToString(value)| <= |buffer|
      && buffer'[start..r.value] == CSharp.NatToString(value)
    ensures forall k :: 0 <= k < |buffer| && (k < start || (r.Success? && k >= r.value)) ==> buffer'[k] == buffer[k]
  {
    buffer', r := WriteLsbDigits(value, buffer, start);
    if r.Failure? || value == 0 {
      return;
    }
    var written := buffer';
    buffer' := ReverseRange(written, start, r.value);
    if value > 0 {
      LsbDigitsReversed(value);
    }
  }

  /** `ConvertMegabytesToBytes`: the megabyte count, sign-extended to
      `ulong`, times 1024 twice, wrapping modulo 2^64. */
  function ConvertMegabytesToBytes(megabytes: int): (bytes: int)
    requires CSharp.IsInt32(megabytes)
    ensures megabytes >= 0 ==> bytes == megabytes * 1024 * 1024
    ensures megabytes < 0 ==> bytes == CSharp.TwoTo64 + megabytes * 1024 * 1024
  {
    CSharp.ToUInt64(CSharp.ToUInt64(CSharp.ToUInt64(megabytes) * 1024) * 1024)
  }

  /** `Mathf.Clamp`. */
  function Clamp(value: real, min: real, max: real): (r: real)
    requires min <= max
    ensures min <= r <= max
    ensures min <= value <= max ==> r == value
    ensures value < min ==> r == min
    ensures value > max ==> r == max
  {
    if value < min then min else if value > max then max else value
  }

  /** The `WindowScale` setter: kept within [0.5, 5]. */
  function SetWindowScale(value: real): (scale: real)
    ensures 0.5 <= scale <= 5.0
    ensures 0.5 <= value <= 5.0 ==> scale == value
  {
    Clamp(value, 0.5, 5.0)
  }

  /** The `WindowFollowSpeed` setter: stores the magnitude. */
  function SetWindowFollowSpeed(value: real): (speed: real)
    ensures speed >= 0.0 && (speed == value || speed == -value)
  {
    if value < 0.0 then -value else value
  }

  /** Setting a property to the value read back from it changes nothing. */
  lemma SettersAreIdempotent(value: real)
    ensures SetWindowScale(SetWindowScale(value)) == SetWindowScale(value)
    ensures SetWindowFollowSpeed(SetWindowFollowSpeed(value)) == SetWindowFollowSpeed(value)
  {
  }
}
