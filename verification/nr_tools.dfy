/** The time helpers of `NRTools`: an elapsed time in milliseconds rendered
    as hours:minutes:seconds, and the nanosecond timestamp. The clock itself
    is an input. */
module NRTools {
  import CSharp

  /** The hours, minutes and seconds of `GetTimeByMSeconds`: the long is
      first cast to `int` (wrapping), then divided with C#'s truncating
      division. */
  function TimeParts(ms: int): (r: (int, int, int))
    ensures 0 <= ms < CSharp.TwoTo31 ==>
      && 0 <= r.1 < 60 && 0 <= r.2 < 60 && 0 <= r.0
      && r.0 * 3600 + r.1 * 60 + r.2 == ms / 1000
  {
    var s := CSharp.Div(CSharp.ToInt32(ms), 1000);
    (CSharp.Div(s, 3600), CSharp.Div(CSharp.Rem(s, 3600), 60), CSharp.Rem(CSharp.Rem(s, 3600), 60))
  }

  /** One field as the source renders it: the number itself when it is
      above 10, otherwise with a "0" in front. The digits still read back as
      the field, but below 100 the field is two characters wide for every
      value except 10. */
  function TimeFieldAsWritten(x: int): (f: string)
    ensures 0 <= x ==> (forall i :: 0 <= i < |f| ==> CSharp.IsDigit(f[i])) && CSharp.DigitsValue(f) == x
    ensures 0 <= x < 100 ==> (|f| == 2 <==> x != 10)
  {
    if x > 10 then TwoDigits(x); CSharp.IntToString(x)
    else
      var d := CSharp.IntToString(x);
      if 0 <= x then LeadingZero(d); TenIsTwoDigits(x); "0" + d else "0" + d
  }

  /** A "0" in front does not change the value of a digit string. */
  lemma {:induction false} LeadingZero(s: string)
    requires forall i :: 0 <= i < |s| ==> CSharp.IsDigit(s[i])
    ensures CSharp.DigitsValue("0" + s) == CSharp.DigitsValue(s)
    decreases |s|
  {
    if |s| > 0 {
      var n := |s| - 1;
      assert ("0" + s)[..|s|] == "0" + s[..n];
      LeadingZero(s[..n]);
    }
  }

  lemma TenIsTwoDigits(x: int)
    requires 0 <= x <= 10
    ensures |CSharp.IntToString(x)| == (if x == 10 then 2 else 1)
  {
    if x == 10 {
      assert CSharp.NatToString(10) == CSharp.NatToString(1) + [CSharp.DigitChar(0)];
    }
  }

  /** `GetTimeByMSeconds` as written: below 100 hours the rendering is eight
      characters exactly when no field is 10. */
  function GetTimeByMSecondsAsWritten(ms: int): (t: string)
    ensures 0 <= ms < 360_000_000 ==>
      (|t| == 8 <==> TimeParts(ms).0 != 10 && TimeParts(ms).1 != 10 && TimeParts(ms).2 != 10)
  {
    var (h, m, s) := TimeParts(ms);
    TimeFieldAsWritten(h) + ":" + TimeFieldAsWritten(m) + ":" + TimeFieldAsWritten(s)
  }

  /** Below 100 hours the code as written and the corrected rendering agree
      exactly when no field is 10. */
  lemma AsWrittenAgreesAwayFromTen(ms: int)
    requires 0 <= ms < 360_000_000
    ensures GetTimeByMSecondsAsWritten(ms) == GetTimeByMSeconds(ms) <==>
      TimeParts(ms).0 != 10 && TimeParts(ms).1 != 10 && TimeParts(ms).2 != 10
  {
  }

  lemma FieldZeroAsWritten()
    ensures TimeFieldAsWritten(0) == "00"
  {
    var z := CSharp.IntToString(0);
    assert z == "0";
    assert TimeFieldAsWritten(0) == "0" + z;
  }

  lemma FieldTenAsWritten()
    ensures TimeFieldAsWritten(10) == "010"
  {
    assert CSharp.NatToString(10) == CSharp.NatToString(1) + [CSharp.DigitChar(0)];
    var t := CSharp.IntToString(10);
    assert t == "10";
    assert TimeFieldAsWritten(10) == "0" + t;
  }

  lemma TenSecondsParts()
    ensures TimeParts(10000) == (0, 0, 10)
  {
    assert CSharp.ToInt32(10000) == 10000;
    assert CSharp.Div(10000, 1000) == 10;
    assert CSharp.Div(10, 3600) == 0 && CSharp.Rem(10, 3600) == 10;
    assert CSharp.Div(10, 60) == 0 && CSharp.Rem(10, 60) == 10;
  }

  /** The comparison `> 10` pads 10 itself: ten seconds render as
      00:00:010, three digits in the seconds field. */
  lemma TenSecondsRenderAsThreeDigits()
    ensures TimeFieldAsWritten(0) == "00" && TimeFieldAsWritten(10) == "010"
    ensures GetTimeByMSecondsAsWritten(10000) == TimeFieldAsWritten(0) + ":" + TimeFieldAsWritten(0) + ":" + TimeFieldAsWritten(10)
  {
    FieldZeroAsWritten();
    FieldTenAsWritten();
    TenSecondsParts();
  }

  /** One field padded to two digits, as evidently intended (`>= 10`). */
  function TimeField(x: int): (f: string)
    ensures 0 <= x < 100 ==> |f| == 2 && (forall i :: 0 <= i < 2 ==> CSharp.IsDigit(f[i])) && CSharp.DigitsValue(f) == x
  {
    if x >= 10 then TwoDigits(x); CSharp.IntToString(x)
    else PaddedDigit(x); "0" + CSharp.IntToString(x)
  }

  lemma TwoDigits(x: int)
    ensures 10 <= x < 100 ==> |CSharp.NatToString(x)| == 2
  {
  }

  lemma PaddedDigit(x: int)
    ensures 0 <= x < 10 ==>
      var f := "0" + CSharp.IntToString(x);
      |f| == 2 && (forall i :: 0 <= i < 2 ==> CSharp.IsDigit(f[i])) && CSharp.DigitsValue(f) == x
  {
    if 0 <= x < 10 {
      var f := "0" + CSharp.IntToString(x);
      assert f[..1] == "0" && f[..1][..0] == "";
    }
  }

  /** `GetTimeByMSeconds` with two-digit fields. */
  function GetTimeByMSeconds(ms: int): (t: string)
    ensures 0 <= ms < 360_000_000 ==>
      && |t| == 8 && t[2] == ':' && t[5] == ':'
      && (forall i :: 0 <= i < 8 && i != 2 && i != 5 ==> CSharp.IsDigit(t[i]))
  {
    var (h, m, s) := TimeParts(ms);
    TimeField(h) + ":" + TimeField(m) + ":" + TimeField(s)
  }

  /** Below 100 hours the rendered time reads back as the whole number of
      seconds in `ms`. */
  lemma TimeRoundTrip(ms: int)
    requires 0 <= ms < 360_000_000
    ensures var t := GetTimeByMSeconds(ms);
      CSharp.DigitsValue(t[..2]) * 3600 + CSharp.DigitsValue(t[3..5]) * 60 + CSharp.DigitsValue(t[6..]) == ms / 1000
  {
    var (h, m, s) := TimeParts(ms);
    var t := GetTimeByMSeconds(ms);
    assert h < 100;
    assert t[..2] == TimeField(h) && t[3..5] == TimeField(m) && t[6..] == TimeField(s);
  }

  /** `GetTimeStampNanos`: the millisecond timestamp times 10^6 in unsigned
      64-bit arithmetic, which wraps. */
  function GetTimeStampNanos(msStamp: int): (ns: int)
    requires CSharp.IsUInt64(msStamp)
    ensures CSharp.IsUInt64(ns)
    ensures (ns - msStamp * 1_000_000) % CSharp.TwoTo64 == 0
  {
    CSharp.ToUInt64(msStamp * 1_000_000)
  }

  /** The product is exact for timestamps below 2^64 / 10^6 milliseconds
      (about 584 years after 1970). */
  lemma NanosExactForRealisticStamps(msStamp: int)
    requires 0 <= msStamp < CSharp.TwoTo64 / 1_000_000
    ensures GetTimeStampNanos(msStamp) == msStamp * 1_000_000
  {
  }
}
