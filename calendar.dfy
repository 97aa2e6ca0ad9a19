/** Proleptic Gregorian dates and timestamps as Python's `datetime` and pandas hold them: day
    arithmetic, the ISO 8601 / RFC 3339 text forms, and chronological order. */
module Calendar {
  import opened Wrappers
  import opened Text
  import opened Sorting

  datatype Date = Date(year: nat, month: nat, day: nat)

  /** A timestamp to the second; sub-second parts are not modelled. */
  datatype DateTime = DateTime(date: Date, hour: nat, minute: nat, second: nat)

  predicate IsLeap(year: nat) {
    year % 4 == 0 && (year % 100 != 0 || year % 400 == 0)
  }

  function DaysInMonth(year: nat, month: nat): nat
    requires 1 <= month <= 12
  {
    if month == 2 then (if IsLeap(year) then 29 else 28)
    else if month == 4 || month == 6 || month == 9 || month == 11 then 30
    else 31
  }

  /** The dates `datetime.date` can represent (years 1 to 9999). */
  predicate ValidDate(d: Date) {
    1 <= d.year <= 9999 && 1 <= d.month <= 12 && 1 <= d.day <= DaysInMonth(d.year, d.month)
  }

  predicate ValidDateTime(t: DateTime) {
    ValidDate(t.date) && t.hour < 24 && t.minute < 60 && t.second < 60
  }

  // ---------------------------------------------------------------- Day arithmetic

  /** `d - timedelta(days=1)`; `None` where Python raises `OverflowError` (before 0001-01-01). */
  function PreviousDay(d: Date): (r: Option<Date>)
    requires ValidDate(d)
    ensures r.Some? ==> ValidDate(r.value)
    ensures r.None? <==> d == Date(1, 1, 1)
  {
    if d.day > 1 then Some(Date(d.year, d.month, d.day - 1))
    else if d.month > 1 then Some(Date(d.year, d.month - 1, DaysInMonth(d.year, d.month - 1)))
    else if d.year > 1 then Some(Date(d.year - 1, 12, 31))
    else None
  }

  /** `d + timedelta(days=1)`; `None` after 9999-12-31. */
  function NextDay(d: Date): (r: Option<Date>)
    requires ValidDate(d)
    ensures r.Some? ==> ValidDate(r.value)
    ensures r.None? <==> d == Date(9999, 12, 31)
  {
    if d.day < DaysInMonth(d.year, d.month) then Some(Date(d.year, d.month, d.day + 1))
    else if d.month < 12 then Some(Date(d.year, d.month + 1, 1))
    else if d.year < 9999 then Some(Date(d.year + 1, 1, 1))
    else None
  }

  /** Going back a day and then forward a day returns to the start, and vice versa. */
  lemma PreviousNextInverse(d: Date)
    requires ValidDate(d)
    ensures PreviousDay(d).Some? ==> NextDay(PreviousDay(d).value) == Some(d)
    ensures NextDay(d).Some? ==> PreviousDay(NextDay(d).value) == Some(d)
  {
    if PreviousDay(d).Some? {
      PreviousThenNext(d);
    }
    if NextDay(d).Some? {
      NextThenPrevious(d);
    }
  }

  lemma PreviousThenNext(d: Date)
    requires ValidDate(d) && PreviousDay(d).Some?
    ensures NextDay(PreviousDay(d).value) == Some(d)
  {
    var p := PreviousDay(d).value;
    if d.day > 1 {
      assert p == Date(d.year, d.month, d.day - 1);
    } else if d.month > 1 {
      assert p == Date(d.year, d.month - 1, DaysInMonth(d.year, d.month - 1));
    } else {
      assert p == Date(d.year - 1, 12, 31);
    }
  }

  lemma NextThenPrevious(d: Date)
    requires ValidDate(d) && NextDay(d).Some?
    ensures PreviousDay(NextDay(d).value) == Some(d)
  {
    var n := NextDay(d).value;
    if d.day < DaysInMonth(d.year, d.month) {
      assert n == Date(d.year, d.month, d.day + 1);
    } else if d.month < 12 {
      assert n == Date(d.year, d.month + 1, 1);
    } else {
      assert n == Date(d.year + 1, 1, 1);
    }
  }

  function DaysInYear(year: nat): nat {
    if IsLeap(year) then 366 else 365
  }

  /** Days from 0001-01-01 to the first of January of `year`. */
  function DaysBeforeYear(year: nat): nat {
    if year <= 1 then 0 else DaysBeforeYear(year - 1) + DaysInYear(year - 1)
  }

  /** Days from the first of January to the first of `month`. */
  function DaysBeforeMonth(year: nat, month: nat): nat
    requires 1 <= month <= 12
  {
    if month == 1 then 0 else DaysBeforeMonth(year, month - 1) + DaysInMonth(year, month - 1)
  }

  /** The proleptic Gregorian ordinal, counted from 0 at 0001-01-01 (`date.toordinal() - 1`). */
  function DayNumber(d: Date): nat
    requires ValidDate(d)
  {
    DaysBeforeYear(d.year) + DaysBeforeMonth(d.year, d.month) + d.day - 1
  }

  /** The previous day is exactly one day earlier on the day count, across month and year ends. */
  lemma PreviousDayCount(d: Date)
    requires ValidDate(d) && d != Date(1, 1, 1)
    ensures DayNumber(PreviousDay(d).value) + 1 == DayNumber(d)
  {
    if d.day > 1 {
    } else if d.month > 1 {
      PreviousDayAcrossMonth(d);
    } else {
      PreviousDayAcrossYear(d);
    }
  }

  lemma PreviousDayAcrossMonth(d: Date)
    requires ValidDate(d) && d.day == 1 && d.month > 1
    ensures DayNumber(PreviousDay(d).value) + 1 == DayNumber(d)
  {
    var p := Date(d.year, d.month - 1, DaysInMonth(d.year, d.month - 1));
    assert PreviousDay(d).value == p;
    assert DaysBeforeMonth(d.year, d.month) == DaysBeforeMonth(d.year, d.month - 1) + DaysInMonth(d.year, d.month - 1);
  }

  lemma PreviousDayAcrossYear(d: Date)
    requires ValidDate(d) && d.day == 1 && d.month == 1 && d.year > 1
    ensures DayNumber(PreviousDay(d).value) + 1 == DayNumber(d)
  {
    var p := Date(d.year - 1, 12, 31);
    assert PreviousDay(d).value == p;
    assert DaysBeforeYear(d.year) == DaysBeforeYear(d.year - 1) + DaysInYear(d.year - 1);
    DaysBeforeDecember(d.year - 1);
  }

  lemma DaysBeforeDecember(year: nat)
    ensures DaysBeforeMonth(year, 12) == DaysInYear(year) - 31
  {
    var f := DaysInMonth(year, 2);
    assert DaysBeforeMonth(year, 2) == 31;
    assert DaysBeforeMonth(year, 3) == 31 + f;
    assert DaysBeforeMonth(year, 4) == 62 + f;
    assert DaysBeforeMonth(year, 5) == 92 + f;
    assert DaysBeforeMonth(year, 6) == 123 + f;
    assert DaysBeforeMonth(year, 7) == 153 + f;
    assert DaysBeforeMonth(year, 8) == 184 + f;
    assert DaysBeforeMonth(year, 9) == 215 + f;
    assert DaysBeforeMonth(year, 10) == 245 + f;
    assert DaysBeforeMonth(year, 11) == 276 + f;
  }

  // ---------------------------------------------------------------- Chronological order

  predicate DateLess(a: Date, b: Date) {
    a.year < b.year
    || (a.year == b.year && (a.month < b.month || (a.month == b.month && a.day < b.day)))
  }

  /** Chronological order on timestamps: by date, then hour, minute and second. */
  predicate DateTimeLess(a: DateTime, b: DateTime) {
    DateLess(a.date, b.date)
    || (a.date == b.date
        && (a.hour < b.hour
            || (a.hour == b.hour && (a.minute < b.minute || (a.minute == b.minute && a.second < b.second)))))
  }

  /** Chronological order as a value, for sorting and grouping. */
  function Chronological(): (DateTime, DateTime) -> bool {
    (a: DateTime, b: DateTime) => DateTimeLess(a, b)
  }

  lemma DateTimeLessIsStrictTotal()
    ensures StrictTotalOrder(Chronological())
  {
  }

  /** The previous day comes before the day. */
  lemma PreviousDayEarlier(d: Date)
    requires ValidDate(d) && d != Date(1, 1, 1)
    ensures DateLess(PreviousDay(d).value, d)
  {
  }

  // ---------------------------------------------------------------- Text forms

  /** `date.isoformat()`: the RFC 3339 (section 5.6) `full-date` form `YYYY-MM-DD`. */
  function FormatDate(d: Date): string {
    ZeroPad(d.year, 4) + "-" + ZeroPad(d.month, 2) + "-" + ZeroPad(d.day, 2)
  }

  /** `date.fromisoformat` on the `full-date` form; `None` where it raises `ValueError`. */
  function ParseDate(s: string): (r: Option<Date>)
    ensures r.Some? ==> ValidDate(r.value)
  {
    if |s| == 10 && s[4] == '-' && s[7] == '-' && IsDigits(s[..4]) && IsDigits(s[5..7]) && IsDigits(s[8..]) then
      var d := Date(DigitsValue(s[..4]), DigitsValue(s[5..7]), DigitsValue(s[8..]));
      if ValidDate(d) then Some(d) else None
    else None
  }

  lemma FormatDateShape(d: Date)
    requires ValidDate(d)
    ensures var s := FormatDate(d);
      && |s| == 10 && s[4] == '-' && s[7] == '-'
      && s[..4] == ZeroPad(d.year, 4) && s[5..7] == ZeroPad(d.month, 2) && s[8..] == ZeroPad(d.day, 2)
  {
    assert Pow10(4) == 10000 && Pow10(2) == 100 by {
      assert Pow10(1) == 10;
    }
    ZeroPadSpec(d.year, 4);
    ZeroPadSpec(d.month, 2);
    ZeroPadSpec(d.day, 2);
  }

  /** Every date's ISO text parses back to the date. */
  lemma ParseFormatDate(d: Date)
    requires ValidDate(d)
    ensures ParseDate(FormatDate(d)) == Some(d)
  {
    assert Pow10(4) == 10000 && Pow10(2) == 100 by {
      assert Pow10(1) == 10;
    }
    ZeroPadSpec(d.year, 4);
    ZeroPadSpec(d.month, 2);
    ZeroPadSpec(d.day, 2);
    FormatDateShape(d);
  }

  /** Whatever parses is the canonical text of its date, so the parse is one-to-one. */
  lemma FormatParseDate(s: string)
    requires ParseDate(s).Some?
    ensures FormatDate(ParseDate(s).value) == s
  {
    var d := ParseDate(s).value;
    ZeroPadOfDigits(s[..4]);
    ZeroPadOfDigits(s[5..7]);
    ZeroPadOfDigits(s[8..]);
    FormatDateShape(d);
    var t := FormatDate(d);
    assert t == s by {
      assert t[..4] == s[..4] && t[5..7] == s[5..7] && t[8..] == s[8..];
      assert forall i :: 0 <= i < 4 ==> t[i] == t[..4][i] && s[i] == s[..4][i];
      assert forall i :: 5 <= i < 7 ==> t[i] == t[5..7][i - 5] && s[i] == s[5..7][i - 5];
      assert forall i :: 8 <= i < 10 ==> t[i] == t[8..][i - 8] && s[i] == s[8..][i - 8];
    }
  }

  /** `HH:MM:SS`. */
  function FormatClock(hour: nat, minute: nat, second: nat): string {
    ZeroPad(hour, 2) + ":" + ZeroPad(minute, 2) + ":" + ZeroPad(second, 2)
  }

  /** `str(Timestamp)` for a whole-second timestamp: `YYYY-MM-DD HH:MM:SS`. */
  function FormatDateTime(t: DateTime): string {
    FormatDate(t.date) + [' '] + FormatClock(t.hour, t.minute, t.second)
  }

  /** Reads `HH:MM:SS`. */
  function ParseClock(s: string): Option<(nat, nat, nat)> {
    if |s| == 8 && s[2] == ':' && s[5] == ':' && IsDigits(s[..2]) && IsDigits(s[3..5]) && IsDigits(s[6..]) then
      var h, m, sec := DigitsValue(s[..2]), DigitsValue(s[3..5]), DigitsValue(s[6..]);
      if h < 24 && m < 60 && sec < 60 then Some((h, m, sec)) else None
    else None
  }

  /** `pd.to_datetime` on ISO text: a `full-date` alone (midnight), or followed by a space or
      `T` and `HH:MM:SS`; `None` for anything else (coerced to `NaT`). */
  function ParseDateTime(s: string): (r: Option<DateTime>)
    ensures r.Some? ==> ValidDateTime(r.value)
  {
    if |s| == 10 then
      match ParseDate(s)
      case Some(d) => Some(DateTime(d, 0, 0, 0))
      case None => None
    else if |s| == 19 && (s[10] == ' ' || s[10] == 'T') then
      match (ParseDate(s[..10]), ParseClock(s[11..]))
      case (Some(d), Some((h, m, sec))) => Some(DateTime(d, h, m, sec))
      case _ => None
    else None
  }

  lemma ParseFormatClock(h: nat, m: nat, sec: nat)
    requires h < 24 && m < 60 && sec < 60
    ensures |FormatClock(h, m, sec)| == 8
    ensures ParseClock(FormatClock(h, m, sec)) == Some((h, m, sec))
  {
    assert Pow10(2) == 100 by {
      assert Pow10(1) == 10;
    }
    ZeroPadSpec(h, 2);
    ZeroPadSpec(m, 2);
    ZeroPadSpec(sec, 2);
    var s := FormatClock(h, m, sec);
    assert s[..2] == ZeroPad(h, 2) && s[3..5] == ZeroPad(m, 2) && s[6..] == ZeroPad(sec, 2);
  }

  /** A date, one separator character and a clock read back to the timestamp. */
  lemma ParseJoinedDateTime(t: DateTime, sep: char)
    requires ValidDateTime(t) && (sep == ' ' || sep == 'T')
    ensures ParseDateTime(FormatDate(t.date) + [sep] + FormatClock(t.hour, t.minute, t.second)) == Some(t)
  {
    var ds := FormatDate(t.date);
    var cs := FormatClock(t.hour, t.minute, t.second);
    FormatDateShape(t.date);
    ParseFormatDate(t.date);
    ParseFormatClock(t.hour, t.minute, t.second);
    var s := ds + [sep] + cs;
    assert s[..10] == ds && s[10] == sep && s[11..] == cs;
  }

  /** A timestamp's text parses back to the timestamp. */
  lemma ParseFormatDateTime(t: DateTime)
    requires ValidDateTime(t)
    ensures ParseDateTime(FormatDateTime(t)) == Some(t)
  {
    ParseJoinedDateTime(t, ' ');
  }

  /** `Timestamp.isoformat()` of a UTC timestamp with `+00:00` written as `Z`. */
  function FormatUtc(t: DateTime): string {
    FormatDate(t.date) + ['T'] + FormatClock(t.hour, t.minute, t.second) + ['Z']
  }

  /** The UTC form is the timestamp's text with `T` for the space and a trailing `Z`, so it
      reads back to the same instant. */
  lemma FormatUtcParses(t: DateTime)
    requires ValidDateTime(t)
    ensures var u := FormatUtc(t); |u| == 20 && u[19] == 'Z' && ParseDateTime(u[..19]) == Some(t)
  {
    var p := FormatDate(t.date) + ['T'] + FormatClock(t.hour, t.minute, t.second);
    FormatDateShape(t.date);
    ParseFormatClock(t.hour, t.minute, t.second);
    ParseJoinedDateTime(t, 'T');
    var u := FormatUtc(t);
    assert u == p + ['Z'];
    assert u[..19] == p;
  }
}
