/**
 * Timestamp text: `pad` and `iso8601` (main.js:14-24), which give the
 * XML-RPC `dateTime.iso8601` form YYYYMMDDTHH:MM:SS, and the
 * `datetime-local` form of `toLocalDTStr` (main.js:296). A JavaScript `Date`
 * is not modelled; both work on the values its local-time getters return.
 */
module Dates {
  import opened Opt
  import opened Text

  /** `getFullYear()`, `getMonth()` (counted from 0), `getDate()`,
      `getHours()`, `getMinutes()` and `getSeconds()` of a `Date`. */
  datatype DateFields = DateFields(year: int, month: nat, day: nat, hours: nat, minutes: nat, seconds: nat)

  /** The ranges the getters keep to. */
  predicate InRange(d: DateFields)
  {
    d.month <= 11 && 1 <= d.day <= 31 && d.hours <= 23 && d.minutes <= 59 && d.seconds <= 59
  }

  /** `pad(n)`: a number below 10 gets one leading zero. */
  function Pad(n: nat): (r: string)
    ensures |r| >= 2 && AllDigits(r) && DigitsValue(r) == n
    ensures n <= 99 ==> |r| == 2
  {
    if n < 10 then
      var r := "0" + NatToString(n);
      assert r[..1] == "0";
      r
    else
      assert NatToString(n) == NatToString(n / 10) + [DigitChar(n % 10)];
      NatToString(n)
  }

  /** The four-digit years print as four digits. */
  lemma FourDigits(y: nat)
    requires 1000 <= y <= 9999
    ensures |NatToString(y)| == 4
  {
    var a := y / 10;
    var b := a / 10;
    var c := b / 10;
    assert 100 <= a <= 999 && 10 <= b <= 99 && 1 <= c <= 9;
    OneMoreDigit(y);
    OneMoreDigit(a);
    OneMoreDigit(b);
    assert |NatToString(c)| == 1;
  }

  lemma OneMoreDigit(n: nat)
    requires n >= 10
    ensures |NatToString(n)| == |NatToString(n / 10)| + 1
  {
  }

  /** `iso8601(d)`: year, month, day, `T`, then hours, minutes and seconds
      separated by colons. */
  function Iso8601(d: DateFields): string
  {
    DateDigits(d) + TimeOfDay(d)
  }

  /** The first half of `iso8601`: YYYYMMDD. */
  function DateDigits(d: DateFields): string
  {
    IntToString(d.year) + Pad(d.month + 1) + Pad(d.day)
  }

  /** The second half of `iso8601`: THH:MM:SS. */
  function TimeOfDay(d: DateFields): string
  {
    "T" + Pad(d.hours) + ":" + Pad(d.minutes) + ":" + Pad(d.seconds)
  }

  /** Reads the YYYYMMDDTHH:MM:SS form back into getter values. */
  function ParseIso8601(s: string): (r: Option<DateFields>)
    ensures r.Some? ==> |s| == 17 && s[8] == 'T' && s[11] == ':' && s[14] == ':'
  {
    if |s| == 17 && AllDigits(s[..8]) && s[8] == 'T' && AllDigits(s[9..11]) && s[11] == ':'
       && AllDigits(s[12..14]) && s[14] == ':' && AllDigits(s[15..]) && DigitsValue(s[4..6]) >= 1
    then Some(DateFields(DigitsValue(s[..4]), DigitsValue(s[4..6]) - 1, DigitsValue(s[6..8]),
                         DigitsValue(s[9..11]), DigitsValue(s[12..14]), DigitsValue(s[15..])))
    else None
  }

  /** For a four-digit year the timestamp is 17 characters long and gives
      back every field it was made from. */
  lemma AllDigitsConcat(a: string, b: string)
    requires AllDigits(a) && AllDigits(b)
    ensures AllDigits(a + b)
  {
    assert forall i :: |a| <= i < |a + b| ==> (a + b)[i] == b[i - |a|];
  }

  /** The date half, YYYYMMDD, for a four-digit year. */
  lemma DatePart(d: DateFields)
    requires InRange(d) && 1000 <= d.year <= 9999
    ensures var a := DateDigits(d);
      |a| == 8 && AllDigits(a) && a[..4] == NatToString(d.year) && a[4..6] == Pad(d.month + 1) && a[6..] == Pad(d.day)
  {
    FourDigits(d.year);
    var y, mo, da := NatToString(d.year), Pad(d.month + 1), Pad(d.day);
    AllDigitsConcat(y, mo);
    AllDigitsConcat(y + mo, da);
    var a := y + mo + da;
    assert a[..4] == y;
    assert a[4..6] == mo;
  }

  /** The time half, THH:MM:SS. */
  lemma TimePart(d: DateFields)
    requires InRange(d)
    ensures var b := TimeOfDay(d);
      |b| == 9 && b[0] == 'T' && b[3] == ':' && b[6] == ':'
      && b[1..3] == Pad(d.hours) && b[4..6] == Pad(d.minutes) && b[7..] == Pad(d.seconds)
  {
  }

  /** Where each field sits in the timestamp of a four-digit year. */
  lemma Iso8601Parts(d: DateFields)
    requires InRange(d) && 1000 <= d.year <= 9999
    ensures var s := Iso8601(d);
      && |s| == 17 && AllDigits(s[..8]) && s[8] == 'T' && s[11] == ':' && s[14] == ':'
      && s[..4] == NatToString(d.year) && s[4..6] == Pad(d.month + 1) && s[6..8] == Pad(d.day)
      && s[9..11] == Pad(d.hours) && s[12..14] == Pad(d.minutes) && s[15..] == Pad(d.seconds)
  {
    DatePart(d);
    TimePart(d);
    SplitAt8(DateDigits(d), TimeOfDay(d));
  }

  /** The slices of an eight-character string followed by a nine-character one. */
  lemma SplitAt8(a: string, b: string)
    requires |a| == 8 && |b| == 9
    ensures var s := a + b;
      && |s| == 17 && s[..8] == a && s[8] == b[0] && s[11] == b[3] && s[14] == b[6]
      && s[..4] == a[..4] && s[4..6] == a[4..6] && s[6..8] == a[6..]
      && s[9..11] == b[1..3] && s[12..14] == b[4..6] && s[15..] == b[7..]
  {
  }

  /** For a four-digit year the timestamp is 17 characters long and gives
      back every field it was made from. */
  lemma Iso8601RoundTrip(d: DateFields)
    requires InRange(d) && 1000 <= d.year <= 9999
    ensures |Iso8601(d)| == 17
    ensures ParseIso8601(Iso8601(d)) == Some(d)
  {
    Iso8601Parts(d);
  }

  /** `String(n).padStart(2, '0')`. */
  function PadStart2(s: string): (r: string)
    ensures |s| < 2 ==> |r| == 2
  {
    if |s| == 0 then "00" else if |s| == 1 then "0" + s else s
  }

  /** The two zero-padding helpers of the source agree on every getter value. */
  lemma PadStartIsPad(n: nat)
    ensures PadStart2(NatToString(n)) == Pad(n)
  {
    if n >= 10 {
      assert NatToString(n) == NatToString(n / 10) + [DigitChar(n % 10)];
    }
  }

  /** `toLocalDTStr(d)`: YYYY-MM-DDTHH:MM, the value of a `datetime-local` input. */
  function LocalDateTime(d: DateFields): string
  {
    LocalDate(d) + LocalTime(d)
  }

  /** The date half of `toLocalDTStr`: YYYY-MM-DD. */
  function LocalDate(d: DateFields): string
  {
    IntToString(d.year) + "-" + PadStart2(NatToString(d.month + 1)) + "-" + PadStart2(NatToString(d.day))
  }

  /** The time half of `toLocalDTStr`: THH:MM. */
  function LocalTime(d: DateFields): string
  {
    "T" + PadStart2(NatToString(d.hours)) + ":" + PadStart2(NatToString(d.minutes))
  }

  /** Where the parts of `y-mo-da` sit, for a four-character `y`. */
  lemma DashedDate(y: string, mo: string, da: string)
    requires |y| == 4 && |mo| == 2 && |da| == 2
    ensures var a := y + "-" + mo + "-" + da;
      && |a| == 10 && a[4] == '-' && a[7] == '-'
      && a[..4] == y && a[5..7] == mo && a[8..] == da
  {
  }

  lemma LocalDatePart(d: DateFields)
    requires InRange(d) && 1000 <= d.year <= 9999
    ensures var a := LocalDate(d);
      && |a| == 10 && a[4] == '-' && a[7] == '-'
      && a[..4] == NatToString(d.year) && a[5..7] == Pad(d.month + 1) && a[8..] == Pad(d.day)
  {
    FourDigits(d.year);
    PadStartIsPad(d.month + 1);
    PadStartIsPad(d.day);
    DashedDate(NatToString(d.year), Pad(d.month + 1), Pad(d.day));
  }

  lemma LocalTimePart(d: DateFields)
    requires InRange(d)
    ensures var b := LocalTime(d);
      |b| == 6 && b[0] == 'T' && b[3] == ':' && b[1..3] == Pad(d.hours) && b[4..] == Pad(d.minutes)
  {
    PadStartIsPad(d.hours);
    PadStartIsPad(d.minutes);
  }

  /** Where each field sits in the `datetime-local` text of a four-digit year. */
  lemma LocalDateTimeParts(d: DateFields)
    requires InRange(d) && 1000 <= d.year <= 9999
    ensures var l := LocalDateTime(d);
      && |l| == 16 && l[4] == '-' && l[7] == '-' && l[10] == 'T' && l[13] == ':'
      && l[..4] == NatToString(d.year) && l[5..7] == Pad(d.month + 1) && l[8..10] == Pad(d.day)
      && l[11..13] == Pad(d.hours) && l[14..] == Pad(d.minutes)
  {
    LocalDatePart(d);
    LocalTimePart(d);
    SplitAt10(LocalDate(d), LocalTime(d));
  }

  /** The slices of a ten-character string followed by a six-character one. */
  lemma SplitAt10(a: string, b: string)
    requires |a| == 10 && |b| == 6
    ensures var l := a + b;
      && |l| == 16 && l[4] == a[4] && l[7] == a[7] && l[10] == b[0] && l[13] == b[3]
      && l[..4] == a[..4] && l[5..7] == a[5..7] && l[8..10] == a[8..]
      && l[11..13] == b[1..3] && l[14..] == b[4..]
  {
  }

  /** The `datetime-local` text carries the same year, month, day, hours and
      minutes as the `dateTime.iso8601` text, with dashes between the date
      fields and without the seconds. */
  lemma LocalDateTimeMatchesIso8601(d: DateFields)
    requires InRange(d) && 1000 <= d.year <= 9999
    ensures var l, s := LocalDateTime(d), Iso8601(d);
      |l| == 16 && l[4] == '-' && l[7] == '-'
      && l[..4] == s[..4] && l[5..7] == s[4..6] && l[8..10] == s[6..8] && l[10..] == s[8..14]
  {
    Iso8601Parts(d);
    LocalDateTimeParts(d);
    var l, s := LocalDateTime(d), Iso8601(d);
    assert l[10..] == [l[10]] + l[11..13] + [l[13]] + l[14..];
    assert s[8..14] == [s[8]] + s[9..11] + [s[11]] + s[12..14];
  }
}
