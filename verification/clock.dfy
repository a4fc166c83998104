/**
 * The purchase date and time, read as Go's time.Parse reads them with the
 * layouts "2006-01-02" and "15:04".
 *
 * "2006" takes exactly four digits, "01" and "02" exactly two; the month
 * must lie in 1..12 and the day must exist in that month of that year
 * (Gregorian leap years). "15" takes one or two digits (two when the
 * second character is a digit) with the hour in 0..23; "04" takes exactly
 * two digits with the minute in 0..59. Nothing may follow the layout.
 */
module Clock {
  import opened Wrappers
  import opened Text

  datatype Date = Date(year: nat, month: nat, day: nat)

  datatype TimeOfDay = TimeOfDay(hour: nat, minute: nat)

  predicate IsLeap(year: nat) {
    year % 4 == 0 && (year % 100 != 0 || year % 400 == 0)
  }

  function DaysIn(month: nat, year: nat): (n: nat)
    requires 1 <= month <= 12
    ensures 28 <= n <= 31
    ensures n == 29 <==> month == 2 && IsLeap(year)
  {
    if month == 2 then (if IsLeap(year) then 29 else 28)
    else if month == 4 || month == 6 || month == 9 || month == 11 then 30
    else 31
  }

  /** A calendar date with a four-digit year. */
  predicate ValidDate(d: Date) {
    d.year < 10000 && 1 <= d.month <= 12 && 1 <= d.day <= DaysIn(d.month, d.year)
  }

  predicate ValidTime(t: TimeOfDay) {
    t.hour < 24 && t.minute < 60
  }

  // ---------------------------------------------------------------------
  // time.Parse("2006-01-02", s)
  // ---------------------------------------------------------------------

  function ParseDate(s: string): (r: Option<Date>)
    ensures r.Some? ==> ValidDate(r.value)
  {
    if |s| == 10 && AllDigits(s[..4]) && s[4] == '-' && AllDigits(s[5..7]) && s[7] == '-' && AllDigits(s[8..]) then
      var date := Date(DigitsValue(s[..4]), DigitsValue(s[5..7]), DigitsValue(s[8..]));
      if ValidDate(date) then Some(date) else None
    else None
  }

  /** The one spelling of a date that the layout "2006-01-02" describes. */
  function FormatDate(d: Date): string {
    Digits(d.year, 4) + "-" + Digits(d.month, 2) + "-" + Digits(d.day, 2)
  }

  /** Every valid date is read back from its own spelling. */
  lemma ParseFormatDate(d: Date)
    requires ValidDate(d)
    ensures ParseDate(FormatDate(d)) == Some(d)
  {
    var y, m, dd := Digits(d.year, 4), Digits(d.month, 2), Digits(d.day, 2);
    var s := FormatDate(d);
    assert |s| == 10;
    assert s[..4] == y && s[4] == '-' && s[5..7] == m && s[7] == '-' && s[8..] == dd;
    assert Pow10(1) == 10 && Pow10(2) == 100 && Pow10(3) == 1000 && Pow10(4) == 10000;
    DigitsValueOfDigits(d.year, 4);
    DigitsValueOfDigits(d.month, 2);
    DigitsValueOfDigits(d.day, 2);
    assert Date(DigitsValue(s[..4]), DigitsValue(s[5..7]), DigitsValue(s[8..])) == d;
  }

  /** Only the spelling of a valid date is accepted. */
  lemma FormatParsedDate(s: string)
    requires ParseDate(s).Some?
    ensures FormatDate(ParseDate(s).value) == s
  {
    DigitsOfDigitsValue(s[..4]);
    DigitsOfDigitsValue(s[5..7]);
    DigitsOfDigitsValue(s[8..]);
    assert s == s[..4] + "-" + s[5..7] + "-" + s[8..];
  }

  // ---------------------------------------------------------------------
  // time.Parse("15:04", s)
  // ---------------------------------------------------------------------

  function ParseTime(s: string): (r: Option<TimeOfDay>)
    ensures r.Some? ==> ValidTime(r.value)
  {
    var t :=
      if |s| == 5 && AllDigits(s[..2]) && s[2] == ':' && AllDigits(s[3..]) then
        Some(TimeOfDay(DigitsValue(s[..2]), DigitsValue(s[3..])))
      else if |s| == 4 && IsDigit(s[0]) && s[1] == ':' && AllDigits(s[2..]) then
        Some(TimeOfDay(DigitValue(s[0]), DigitsValue(s[2..])))
      else None;
    if t.Some? && ValidTime(t.value) then t else None
  }

  /** The two-digit spelling of a time. */
  function FormatTime(t: TimeOfDay): string {
    Digits(t.hour, 2) + ":" + Digits(t.minute, 2)
  }

  /** The spelling of a morning time with a one-digit hour ("9:05"). */
  function FormatTimeShort(t: TimeOfDay): string {
    Digits(t.hour, 1) + ":" + Digits(t.minute, 2)
  }

  /** Every valid time is read back from its two-digit spelling, and from its one-digit one below 10:00. */
  lemma ParseFormatTime(t: TimeOfDay)
    requires ValidTime(t)
    ensures ParseTime(FormatTime(t)) == Some(t)
    ensures t.hour < 10 ==> ParseTime(FormatTimeShort(t)) == Some(t)
  {
    assert Pow10(2) == 100 && Pow10(1) == 10;
    var h, m := Digits(t.hour, 2), Digits(t.minute, 2);
    var s := FormatTime(t);
    assert |s| == 5;
    assert s[..2] == h && s[2] == ':' && s[3..] == m;
    DigitsValueOfDigits(t.hour, 2);
    DigitsValueOfDigits(t.minute, 2);
    assert TimeOfDay(DigitsValue(s[..2]), DigitsValue(s[3..])) == t;
    if t.hour < 10 {
      var short := FormatTimeShort(t);
      var h1 := Digits(t.hour, 1);
      assert |short| == 4;
      assert short[2..] == m && short[1] == ':' && short[0] == h1[0];
      DigitsValueOfDigits(t.hour, 1);
      assert h1[..0] == [];
      assert DigitValue(short[0]) == t.hour;
      assert TimeOfDay(DigitValue(short[0]), DigitsValue(short[2..])) == t;
    }
  }

  /** Only those spellings are accepted. */
  lemma FormatParsedTime(s: string)
    requires ParseTime(s).Some?
    ensures var t := ParseTime(s).value;
      s == FormatTime(t) || (t.hour < 10 && s == FormatTimeShort(t))
  {
    if |s| == 5 {
      DigitsOfDigitsValue(s[..2]);
      DigitsOfDigitsValue(s[3..]);
      assert s == s[..2] + ":" + s[3..];
    } else {
      DigitsOfDigitsValue(s[..1]);
      DigitsOfDigitsValue(s[2..]);
      assert s[..1] == [] + [s[0]];
      assert s == s[..1] + ":" + s[2..];
    }
  }

  /** Minutes since midnight. */
  function MinuteOfDay(t: TimeOfDay): nat {
    60 * t.hour + t.minute
  }
}
