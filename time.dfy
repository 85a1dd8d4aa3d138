/**
 * `convertTo12Hour` of src/components/TimeConverter.jsx: a 24-hour "HH:MM"
 * time shown as "h:mm AM" or "h:mm PM". The model starts from the two
 * numbers `split(':').map(Number)` produces.
 */
module TimeConverter {

  predicate IsDigit(c: char) {
    '0' <= c <= '9'
  }

  function DigitChar(d: nat): (c: char)
    requires d < 10
    ensures IsDigit(c)
  {
    ['0', '1', '2', '3', '4', '5', '6', '7', '8', '9'][d]
  }

  function DigitValue(c: char): nat
    requires IsDigit(c)
  {
    (c as int - '0' as int) as nat
  }

  lemma DigitRoundTrip(d: nat)
    requires d < 10
    ensures DigitValue(DigitChar(d)) == d
  {
  }

  /** `Number.prototype.toString()` for a non-negative integer: decimal digits, no leading zero. */
  function NatToString(n: nat): (s: string)
    ensures |s| >= 1 && forall i :: 0 <= i < |s| ==> IsDigit(s[i])
    ensures |s| > 1 ==> s[0] != '0'
    ensures n < 10 <==> |s| == 1
  {
    if n < 10 then [DigitChar(n)] else NatToString(n / 10) + [DigitChar(n % 10)]
  }

  /** The number a string of digits denotes (`Number(s)` on such a string). */
  function DecimalValue(s: string): nat
    requires forall i :: 0 <= i < |s| ==> IsDigit(s[i])
  {
    if s == [] then 0 else 10 * DecimalValue(s[..|s| - 1]) + DigitValue(s[|s| - 1])
  }

  /** Reading the digits back gives the number. */
  lemma {:induction false} DecimalOfNatToString(n: nat)
    ensures DecimalValue(NatToString(n)) == n
  {
    var s := NatToString(n);
    if n < 10 {
      DigitRoundTrip(n);
      assert s[..0] == [];
    } else {
      var p := NatToString(n / 10);
      assert s[..|s| - 1] == p;
      DecimalOfNatToString(n / 10);
      DigitRoundTrip(n % 10);
    }
  }

  /** A leading zero does not change the value. */
  lemma {:induction false} LeadingZero(s: string)
    requires forall i :: 0 <= i < |s| ==> IsDigit(s[i])
    ensures DecimalValue(['0'] + s) == DecimalValue(s)
    decreases |s|
  {
    var z := ['0'] + s;
    if s == [] {
      assert z[..0] == [];
    } else {
      assert z[..|z| - 1] == ['0'] + s[..|s| - 1];
      LeadingZero(s[..|s| - 1]);
    }
  }

  /** `padStart(2, '0')`. */
  function PadStart2(s: string): (r: string)
    ensures |s| >= 2 ==> r == s
    ensures |s| < 2 ==> |r| == 2 && r[2 - |s|..] == s && forall i :: 0 <= i < 2 - |s| ==> r[i] == '0'
  {
    if |s| >= 2 then s
    else if |s| == 1 then ['0'] + s
    else "00"
  }

  /** `hours >= 12 ? 'PM' : 'AM'`: two letters, "PM" exactly from noon on. */
  function Period(hours: nat): (p: string)
    ensures |p| == 2
    ensures p == "PM" <==> hours >= 12
    ensures p == "AM" <==> hours < 12
  {
    if hours >= 12 then "PM" else "AM"
  }

  /** `hours % 12 || 12`: the hour on the 12-hour clock. */
  function Hours12(hours: nat): (h: nat)
    ensures 1 <= h <= 12
    ensures h % 12 == hours % 12
  {
    if hours % 12 == 0 then 12 else hours % 12
  }

  /**
   * `convertTo12Hour`: up to the first ':' the digits of the 12-hour hour,
   * then at least two digits that read as the minutes, a space and the period.
   */
  function ConvertTo12Hour(hours: nat, minutes: nat): (r: string)
    ensures Reads12Hour(r, Hours12(hours), minutes, Period(hours))
  {
    var h, m, p := NatToString(Hours12(hours)), PadStart2(NatToString(minutes)), Period(hours);
    DecimalOfNatToString(Hours12(hours));
    PaddedReadsBack(minutes);
    LayoutReads(h, m, p);
    h + ":" + m + " " + p
  }

  /**
   * `r` shows a 12-hour time: a non-empty run of digits up to the first ':'
   * reading as `hour12`, then at least two digits reading as `minutes`, a
   * space and the two-letter `period`.
   */
  predicate Reads12Hour(r: string, hour12: nat, minutes: nat, period: string) {
    var k := ColonIndex(r);
    1 <= k && k + 6 <= |r|
    && AllDigits(r[..k]) && DecimalValue(r[..k]) == hour12
    && AllDigits(r[k + 1..|r| - 3]) && DecimalValue(r[k + 1..|r| - 3]) == minutes
    && r[|r| - 3] == ' ' && r[|r| - 2..] == period
  }

  /** "h:m p" built from a digit run h, at least two digits m and a two-letter p shows h, m and p. */
  lemma LayoutReads(h: string, m: string, p: string)
    requires 1 <= |h| && AllDigits(h) && 2 <= |m| && AllDigits(m) && |p| == 2
    ensures Reads12Hour(h + ":" + m + " " + p, DecimalValue(h), DecimalValue(m), p)
  {
    var r := h + ":" + m + " " + p;
    Layout(h, m, p);
    ReadsFromPieces(r, |h|, h, m, p);
  }

  /** Where the pieces of "h:m p" sit, for a digit run h and a two-letter p. */
  lemma Layout(h: string, m: string, p: string)
    requires AllDigits(h) && |p| == 2
    ensures var r := h + ":" + m + " " + p;
            ColonIndex(r) == |h| && |r| == |h| + |m| + 4
            && r[..|h|] == h && r[|h| + 1..|r| - 3] == m && r[|r| - 3] == ' ' && r[|r| - 2..] == p
  {
    var r := h + ":" + m + " " + p;
    ColonAfterDigits(h, m + " " + p);
    assert r == h + ":" + (m + " " + p);
    assert r == (h + ":") + m + (" " + p);
  }

  /** Reads12Hour from the pieces around the first ':'. */
  lemma ReadsFromPieces(r: string, k: nat, h: string, m: string, p: string)
    requires ColonIndex(r) == k && 1 <= k && k + 6 <= |r|
    requires r[..k] == h && r[k + 1..|r| - 3] == m && r[|r| - 3] == ' ' && r[|r| - 2..] == p
    requires AllDigits(h) && AllDigits(m)
    ensures Reads12Hour(r, DecimalValue(h), DecimalValue(m), p)
  {
  }

  /** Padding keeps the digits' value: the padded text reads back as the number. */
  lemma PaddedReadsBack(n: nat)
    ensures var m := PadStart2(NatToString(n));
            |m| >= 2 && AllDigits(m) && DecimalValue(m) == n
  {
    var s := NatToString(n);
    DecimalOfNatToString(n);
    if |s| == 1 {
      LeadingZero(s);
    }
  }

  /** For minutes below 100 the minute part is two digits denoting the minutes. */
  lemma MinutesPadded(minutes: nat)
    requires minutes < 100
    ensures var m := PadStart2(NatToString(minutes));
            |m| == 2 && IsDigit(m[0]) && IsDigit(m[1]) && DecimalValue(m) == minutes
  {
    var s := NatToString(minutes);
    DecimalOfNatToString(minutes);
    if minutes >= 10 {
      assert |s| == 2 by {
        assert s == NatToString(minutes / 10) + [DigitChar(minutes % 10)];
      }
    } else {
      LeadingZero(s);
    }
  }

  /** A two-digit number is written as its tens digit followed by its units digit. */
  lemma TwoDigits(n: nat)
    requires 10 <= n < 100
    ensures NatToString(n) == [DigitChar(n / 10), DigitChar(n % 10)]
  {
    assert NatToString(n / 10) == [DigitChar(n / 10)];
  }

  /** Five past midnight is "12:05 AM": hour 0 shows as 12. */
  lemma ExampleMidnight()
    ensures ConvertTo12Hour(0, 5) == "12:05 AM"
  {
    TwoDigits(12);
    assert PadStart2(NatToString(5)) == "05";
    assert "12" + ":" + "05" + " " + "AM" == "12:05 AM";
  }

  /** Noon is "12:00 PM": hour 12 shows as 12 and is already PM. */
  lemma ExampleNoon()
    ensures ConvertTo12Hour(12, 0) == "12:00 PM"
  {
    TwoDigits(12);
    assert PadStart2(NatToString(0)) == "00";
    assert "12" + ":" + "00" + " " + "PM" == "12:00 PM";
  }

  /** Half past one in the afternoon is "1:30 PM": no leading zero on the hour. */
  lemma ExampleAfternoon()
    ensures ConvertTo12Hour(13, 30) == "1:30 PM"
  {
    TwoDigits(30);
    assert NatToString(Hours12(13)) == "1";
    assert "1" + ":" + "30" + " " + "PM" == "1:30 PM";
  }

  /** The last minute of the day is "11:59 PM". */
  lemma ExampleLastMinute()
    ensures ConvertTo12Hour(23, 59) == "11:59 PM"
  {
    TwoDigits(11);
    TwoDigits(59);
    assert NatToString(Hours12(23)) == "11";
    assert PadStart2(NatToString(59)) == "59";
    assert "11" + ":" + "59" + " " + "PM" == "11:59 PM";
  }

  /** The 12-hour hour and the period together determine the hour of the day. */
  lemma HourAndPeriodDetermineHour(h1: nat, h2: nat)
    requires h1 < 24 && h2 < 24
    requires Hours12(h1) == Hours12(h2) && Period(h1) == Period(h2)
    ensures h1 == h2
  {
  }

  // ---------------------------------------------------------------------
  // Reading the 12-hour text back
  // ---------------------------------------------------------------------

  /** The position of the first ':', or the length when there is none. */
  function ColonIndex(s: string): (k: nat)
    ensures k <= |s| && (k < |s| ==> s[k] == ':') && forall i :: 0 <= i < k ==> s[i] != ':'
  {
    if s == [] then 0 else if s[0] == ':' then 0 else 1 + ColonIndex(s[1..])
  }

  /** The hour of the day named by a 12-hour hour and a period. */
  function To24(hour12: nat, period: string): nat {
    if period == "PM" then (if hour12 == 12 then 12 else hour12 + 12)
    else (if hour12 == 12 then 0 else hour12)
  }

  predicate AllDigits(s: string) {
    forall i :: 0 <= i < |s| ==> IsDigit(s[i])
  }

  /** Reads "h:mm AM" / "h:mm PM" back into the hour of the day and the minutes. */
  function Parse12Hour(s: string): Option24 {
    var k := ColonIndex(s);
    if k == |s| || |s| < k + 4 then Invalid
    else
      var hourText, rest := s[..k], s[k + 1..];
      var minuteText, period := rest[..|rest| - 3], rest[|rest| - 2..];
      if AllDigits(hourText) && AllDigits(minuteText) && rest[|rest| - 3] == ' ' then
        Time(To24(DecimalValue(hourText), period), DecimalValue(minuteText))
      else Invalid
  }

  datatype Option24 = Invalid | Time(hours: nat, minutes: nat)

  /** The 12-hour hour and the period name the hour they were made from. */
  lemma To24OfHours12(hours: nat)
    requires hours < 24
    ensures To24(Hours12(hours), Period(hours)) == hours
  {
  }

  /** The first ':' after a run of digits is the one that ends it. */
  lemma ColonAfterDigits(h: string, t: string)
    requires AllDigits(h)
    ensures ColonIndex(h + ":" + t) == |h|
  {
    var s := h + ":" + t;
    assert forall i :: 0 <= i < |h| ==> s[i] == h[i];
    assert s[|h|] == ':';
  }

  /** Parse12Hour in terms of the pieces around the first ':'. */
  lemma ParsePieces(s: string, k: nat, hourText: string, minuteText: string, period: string)
    requires ColonIndex(s) == k && k + 4 <= |s|
    requires s[..k] == hourText && s[k + 1..|s| - 3] == minuteText && s[|s| - 3] == ' ' && s[|s| - 2..] == period
    requires AllDigits(hourText) && AllDigits(minuteText)
    ensures Parse12Hour(s) == Time(To24(DecimalValue(hourText), period), DecimalValue(minuteText))
  {
    var rest := s[k + 1..];
    assert rest[..|rest| - 3] == minuteText;
    assert rest[|rest| - 3] == ' ';
    assert rest[|rest| - 2..] == period;
  }

  /** Text of the converter's shape reads back to its parts. */
  lemma ParseParts(h: string, m: string, p: string)
    requires AllDigits(h) && AllDigits(m) && |p| == 2
    ensures Parse12Hour(h + ":" + m + " " + p) == Time(To24(DecimalValue(h), p), DecimalValue(m))
  {
    var rest := m + " " + p;
    var s := h + ":" + m + " " + p;
    assert s == h + ":" + rest;
    ColonAfterDigits(h, rest);
    assert s[..|h|] == h;
    assert s[|h| + 1..|s| - 3] == m;
    assert s[|s| - 3] == ' ';
    assert s[|s| - 2..] == p;
    ParsePieces(s, |h|, h, m, p);
  }

  /**
   * For every valid time of day, the 12-hour text reads back to the same
   * hour and minute: the conversion loses nothing.
   */
  lemma ConvertRoundTrip(hours: nat, minutes: nat)
    requires hours < 24 && minutes < 60
    ensures Parse12Hour(ConvertTo12Hour(hours, minutes)) == Time(hours, minutes)
  {
    var h, m := NatToString(Hours12(hours)), PadStart2(NatToString(minutes));
    MinutesPadded(minutes);
    DecimalOfNatToString(Hours12(hours));
    ParseParts(h, m, Period(hours));
    To24OfHours12(hours);
  }

  /** Hence two different times of day never show the same text. */
  lemma ConvertInjective(h1: nat, m1: nat, h2: nat, m2: nat)
    requires h1 < 24 && m1 < 60 && h2 < 24 && m2 < 60
    requires ConvertTo12Hour(h1, m1) == ConvertTo12Hour(h2, m2)
    ensures h1 == h2 && m1 == m2
  {
    ConvertRoundTrip(h1, m1);
    ConvertRoundTrip(h2, m2);
  }
}
