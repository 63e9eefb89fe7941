/** The part of chrono's `NaiveDateTime` the ingestion path relies on: the
    civil date-time value, its `%Y-%m-%d %H:%M:%S` rendering, its `to_string`
    rendering, and the conversion from whole seconds since the Unix epoch. */
module DateTimes {
  import opened Results

  /** chrono's `NaiveDate` accepts years in this range only. */
  const MinYear: int := -262144
  const MaxYear: int := 262143

  /** A naive (time-zone free) civil date-time, as `Utc::now().naive_utc()` gives it. */
  datatype DateTime = DateTime(year: int, month: nat, day: nat,
                               hour: nat, minute: nat, second: nat, nanosecond: nat)

  // ---------------------------------------------------------------------------
  // Gregorian calendar

  predicate IsLeapYear(y: int) {
    y % 4 == 0 && (y % 100 != 0 || y % 400 == 0)
  }

  function DaysInYear(y: int): nat {
    if IsLeapYear(y) then 366 else 365
  }

  function DaysInMonth(y: int, m: nat): nat
    requires 1 <= m <= 12
  {
    if m == 2 then (if IsLeapYear(y) then 29 else 28)
    else if m == 4 || m == 6 || m == 9 || m == 11 then 30
    else 31
  }

  /** A date-time chrono can hold (leap seconds are not modelled). */
  predicate Valid(dt: DateTime) {
    MinYear <= dt.year <= MaxYear &&
    1 <= dt.month <= 12 && 1 <= dt.day <= DaysInMonth(dt.year, dt.month) &&
    dt.hour < 24 && dt.minute < 60 && dt.second < 60 &&
    dt.nanosecond < 1_000_000_000
  }

  /** Days in the months of year `y` before month `m` (`m == 13` gives the whole year). */
  function DaysBeforeMonth(y: int, m: nat): nat
    requires 1 <= m <= 13
  {
    var common :=
      if m == 1 then 0 else if m == 2 then 31 else if m == 3 then 59
      else if m == 4 then 90 else if m == 5 then 120 else if m == 6 then 151
      else if m == 7 then 181 else if m == 8 then 212 else if m == 9 then 243
      else if m == 10 then 273 else if m == 11 then 304 else if m == 12 then 334
      else 365;
    if IsLeapYear(y) && m > 2 then common + 1 else common
  }

  lemma DaysBeforeNextMonth(y: int, m: nat)
    requires 1 <= m <= 12
    ensures DaysBeforeMonth(y, m + 1) == DaysBeforeMonth(y, m) + DaysInMonth(y, m)
    ensures DaysBeforeMonth(y, 13) == DaysInYear(y)
  {
  }

  /** Leap years among the years before `y`, counted from a fixed origin. */
  function LeapsBefore(y: int): int {
    (y - 1) / 4 - (y - 1) / 100 + (y - 1) / 400
  }

  /** Days from 1970-01-01 to January 1st of year `y` (negative before 1970). */
  function DaysBeforeYear(y: int): int {
    365 * (y - 1970) + LeapsBefore(y) - LeapsBefore(1970)
  }

  lemma StepOf4(y: int)
    ensures y / 4 - (y - 1) / 4 == if y % 4 == 0 then 1 else 0
  {
  }

  lemma StepOf100(y: int)
    ensures y / 100 - (y - 1) / 100 == if y % 100 == 0 then 1 else 0
  {
  }

  lemma StepOf400(y: int)
    ensures y / 400 - (y - 1) / 400 == if y % 400 == 0 then 1 else 0
  {
  }

  lemma CenturyDivisors(y: int)
    ensures y % 400 == 0 ==> y % 100 == 0
    ensures y % 100 == 0 ==> y % 4 == 0
  {
  }

  lemma DaysBeforeNextYear(y: int)
    ensures DaysBeforeYear(y + 1) == DaysBeforeYear(y) + DaysInYear(y)
  {
    StepOf4(y);
    StepOf100(y);
    StepOf400(y);
    CenturyDivisors(y);
  }

  /** Seconds since 1970-01-01 00:00:00 that `dt` denotes (`timestamp()` in chrono). */
  function EpochSeconds(dt: DateTime): int
    requires 1 <= dt.month <= 12
  {
    EpochDays(dt) * 86400 + ClockSeconds(dt)
  }

  /** Whole days from 1970-01-01 to the date of `dt`. */
  function EpochDays(dt: DateTime): int
    requires 1 <= dt.month <= 12
  {
    DaysBeforeYear(dt.year) + DaysBeforeMonth(dt.year, dt.month) + dt.day - 1
  }

  /** Seconds from midnight to the time of day of `dt`. */
  function ClockSeconds(dt: DateTime): nat {
    dt.hour * 3600 + dt.minute * 60 + dt.second
  }

  // ---------------------------------------------------------------------------
  // Whole seconds since the epoch to a civil date-time
  // (`NaiveDateTime::from_timestamp(secs, 0)` for non-negative `secs`)

  /** The year `d` days after January 1st of year `y`, and the day of that year. */
  function YearOfDay(y: int, d: nat): (int, nat)
    decreases d
  {
    if d < DaysInYear(y) then (y, d) else YearOfDay(y + 1, d - DaysInYear(y))
  }

  lemma {:induction false} YearOfDayCorrect(y: int, d: nat)
    ensures YearOfDay(y, d).0 >= y
    ensures YearOfDay(y, d).1 < DaysInYear(YearOfDay(y, d).0)
    ensures DaysBeforeYear(YearOfDay(y, d).0) + YearOfDay(y, d).1 == DaysBeforeYear(y) + d
    decreases d
  {
    if d >= DaysInYear(y) {
      YearOfDayCorrect(y + 1, d - DaysInYear(y));
      DaysBeforeNextYear(y);
    }
  }

  lemma {:induction false} YearOfDayInverse(y0: int, y: int, doy: nat)
    requires y0 <= y && doy < DaysInYear(y)
    ensures DaysBeforeYear(y) - DaysBeforeYear(y0) + doy >= 0
    ensures YearOfDay(y0, DaysBeforeYear(y) - DaysBeforeYear(y0) + doy) == (y, doy)
    decreases y - y0
  {
    DaysBeforeNextYear(y0);
    if y0 < y {
      YearOfDayInverse(y0 + 1, y, doy);
    }
  }

  /** The month `d` days after the first of month `m` of year `y`, and the day of that month. */
  function MonthOfDay(y: int, m: nat, d: nat): (nat, nat)
    requires 1 <= m <= 12
    decreases 12 - m
  {
    if d < DaysInMonth(y, m) || m == 12 then (m, d)
    else MonthOfDay(y, m + 1, d - DaysInMonth(y, m))
  }

  lemma {:induction false} MonthOfDayCorrect(y: int, m: nat, d: nat)
    requires 1 <= m <= 12
    requires DaysBeforeMonth(y, m) + d < DaysInYear(y)
    ensures 1 <= MonthOfDay(y, m, d).0 <= 12
    ensures MonthOfDay(y, m, d).1 < DaysInMonth(y, MonthOfDay(y, m, d).0)
    ensures DaysBeforeMonth(y, MonthOfDay(y, m, d).0) + MonthOfDay(y, m, d).1
            == DaysBeforeMonth(y, m) + d
    decreases 12 - m
  {
    DaysBeforeNextMonth(y, m);
    if !(d < DaysInMonth(y, m) || m == 12) {
      MonthOfDayCorrect(y, m + 1, d - DaysInMonth(y, m));
    }
  }

  lemma {:induction false} MonthOfDayInverse(y: int, m0: nat, m: nat, dom: nat)
    requires 1 <= m0 <= m <= 12 && dom < DaysInMonth(y, m)
    ensures DaysBeforeMonth(y, m) - DaysBeforeMonth(y, m0) + dom >= 0
    ensures MonthOfDay(y, m0, DaysBeforeMonth(y, m) - DaysBeforeMonth(y, m0) + dom) == (m, dom)
    decreases m - m0
  {
    DaysBeforeNextMonth(y, m0);
    if m0 < m {
      DaysBeforeNextMonth(y, m);
      MonthOfDayInverse(y, m0 + 1, m, dom);
    }
  }

  /** The civil date-time `secs` whole seconds after 1970-01-01 00:00:00. */
  function CivilFromEpoch(secs: nat): DateTime {
    var days := secs / 86400;
    var rem := secs % 86400;
    var yd := YearOfDay(1970, days);
    var md := MonthOfDay(yd.0, 1, yd.1);
    DateTime(yd.0, md.0, md.1 + 1, rem / 3600, rem % 3600 / 60, rem % 60, 0)
  }

  /** `secs` is its whole days and the seconds of its last day. */
  lemma SplitSeconds(secs: nat)
    ensures secs == secs / 86400 * 86400 + secs % 86400
    ensures secs % 86400 < 86400
  {
  }

  /** The seconds of a day are its hours, minutes and seconds. */
  lemma ClockParts(rem: nat)
    requires rem < 86400
    ensures rem / 3600 < 24 && rem % 3600 / 60 < 60 && rem % 60 < 60
    ensures rem / 3600 * 3600 + rem % 3600 / 60 * 60 + rem % 60 == rem
  {
    assert rem == rem / 3600 * 3600 + rem % 3600;
    var r := rem % 3600;
    assert r == r / 60 * 60 + r % 60;
    assert rem % 60 == r % 60 by {
      assert rem == (rem / 3600 * 60 + r / 60) * 60 + r % 60;
    }
  }

  /** The conversion yields a well-formed date-time with no sub-second part, and it
      denotes exactly `secs` seconds after the epoch. */
  lemma CivilFromEpochCorrect(secs: nat)
    ensures var dt := CivilFromEpoch(secs);
      dt.year >= 1970 && 1 <= dt.month <= 12 && 1 <= dt.day <= DaysInMonth(dt.year, dt.month) &&
      dt.hour < 24 && dt.minute < 60 && dt.second < 60 && dt.nanosecond == 0 &&
      EpochSeconds(dt) == secs
  {
    var days := secs / 86400;
    var rem := secs % 86400;
    SplitSeconds(secs);
    ClockParts(rem);
    YearOfDayCorrect(1970, days);
    var yd := YearOfDay(1970, days);
    DaysBeforeNextMonth(yd.0, 12);
    MonthOfDayCorrect(yd.0, 1, yd.1);
  }

  /** Whole days and the seconds of the last day make up the seconds again. */
  lemma SplitDay(days: int, rem: int)
    requires 0 <= rem < 86400
    ensures (days * 86400 + rem) / 86400 == days
    ensures (days * 86400 + rem) % 86400 == rem
  {
  }

  lemma DivMod3600(q: nat, r: nat)
    requires r < 3600
    ensures (q * 3600 + r) / 3600 == q && (q * 3600 + r) % 3600 == r
  {
  }

  lemma DivMod60(q: nat, r: nat)
    requires r < 60
    ensures (q * 60 + r) / 60 == q && (q * 60 + r) % 60 == r
  {
  }

  /** Hours, minutes and seconds make up the seconds of a day again. */
  lemma SplitClock(h: nat, mi: nat, se: nat)
    requires mi < 60 && se < 60
    ensures var rem := h * 3600 + mi * 60 + se;
      rem / 3600 == h && rem % 3600 / 60 == mi && rem % 60 == se
  {
    DivMod3600(h, mi * 60 + se);
    DivMod60(mi, se);
    DivMod60(h * 60 + mi, se);
    assert h * 3600 + mi * 60 + se == (h * 60 + mi) * 60 + se;
  }

  /** The day count of a well-formed date from 1970 on splits back into its year,
      month and day. */
  lemma DaysInverse(dt: DateTime)
    requires Valid(dt) && dt.year >= 1970
    ensures var doy := DaysBeforeMonth(dt.year, dt.month) + dt.day - 1;
      doy >= 0 && EpochDays(dt) >= 0 &&
      YearOfDay(1970, EpochDays(dt)) == (dt.year, doy) &&
      MonthOfDay(dt.year, 1, doy) == (dt.month, dt.day - 1)
  {
    var doy := DaysBeforeMonth(dt.year, dt.month) + dt.day - 1;
    DaysBeforeNextMonth(dt.year, dt.month);
    DaysBeforeNextMonth(dt.year, 12);
    MonthOfDayInverse(dt.year, 1, dt.month, dt.day - 1);
    YearOfDayInverse(1970, dt.year, doy);
  }

  /** The conversion of whole days plus the seconds of the last day, given where
      those days end in the calendar. */
  lemma CivilOfParts(dt: DateTime, days: nat, doy: nat, secs: nat)
    requires dt.hour < 24 && dt.minute < 60 && dt.second < 60 && dt.nanosecond == 0
    requires 1 <= dt.month <= 12 && dt.day >= 1
    requires YearOfDay(1970, days) == (dt.year, doy)
    requires MonthOfDay(dt.year, 1, doy) == (dt.month, dt.day - 1)
    requires secs == days * 86400 + ClockSeconds(dt)
    ensures CivilFromEpoch(secs) == dt
  {
    var rem := ClockSeconds(dt);
    SplitClock(dt.hour, dt.minute, dt.second);
    assert rem < 86400 by {
      assert rem < (dt.hour + 1) * 3600;
    }
    SplitDay(days, rem);
  }

  /** Every well-formed date-time from 1970 on, without a sub-second part, is what the
      conversion gives for its own epoch seconds. */
  lemma CivilFromEpochInverse(dt: DateTime, secs: nat)
    requires Valid(dt) && dt.year >= 1970 && dt.nanosecond == 0
    requires secs == EpochSeconds(dt)
    ensures CivilFromEpoch(secs) == dt
  {
    DaysInverse(dt);
    CivilOfParts(dt, EpochDays(dt), DaysBeforeMonth(dt.year, dt.month) + dt.day - 1, secs);
  }

  /** chrono's range check in `from_timestamp`: the year must not pass `MaxYear`. */
  predicate InChronoRange(secs: nat) {
    CivilFromEpoch(secs).year <= MaxYear
  }

  // ---------------------------------------------------------------------------
  // Decimal digits, as Rust's `{}` and `{:0w}` print unsigned integers

  function Pow10(w: nat): (p: nat)
    ensures p >= 1
  {
    if w == 0 then 1 else 10 * Pow10(w - 1)
  }

  predicate IsDigit(c: char) {
    '0' <= c <= '9'
  }

  predicate AllDigits(s: string) {
    forall i :: 0 <= i < |s| ==> IsDigit(s[i])
  }

  function DigitChar(d: nat): (c: char)
    requires d < 10
    ensures IsDigit(c)
  {
    ('0' as int + d) as char
  }

  /** The last `w` decimal digits of `n`, with leading zeros. */
  function FixedDigits(n: nat, w: nat): (s: string)
    ensures |s| == w && AllDigits(s)
  {
    if w == 0 then [] else FixedDigits(n / 10, w - 1) + [DigitChar(n % 10)]
  }

  /** `n` in decimal with no leading zeros (Rust `{}` on an unsigned integer). */
  function Decimal(n: nat): (s: string)
    ensures |s| >= 1 && AllDigits(s)
  {
    if n < 10 then [DigitChar(n)] else Decimal(n / 10) + [DigitChar(n % 10)]
  }

  /** Rust `{:0w}` on an unsigned integer: zero-padded to at least `w` digits. */
  function ZeroPadded(n: nat, w: nat): string {
    if w > 0 && n < Pow10(w) then FixedDigits(n, w) else Decimal(n)
  }

  /** The value of a string of decimal digits. */
  function DigitsValue(s: string): nat
    requires AllDigits(s)
  {
    if s == [] then 0 else DigitsValue(s[..|s| - 1]) * 10 + (s[|s| - 1] as int - '0' as int)
  }

  lemma {:induction false} FixedDigitsRoundTrip(n: nat, w: nat)
    requires n < Pow10(w)
    ensures DigitsValue(FixedDigits(n, w)) == n
  {
    if w > 0 {
      FixedDigitsRoundTrip(n / 10, w - 1);
      var s := FixedDigits(n, w);
      assert s[..|s| - 1] == FixedDigits(n / 10, w - 1);
    }
  }

  lemma {:induction false} DecimalRoundTrip(n: nat)
    ensures DigitsValue(Decimal(n)) == n
  {
    if n >= 10 {
      DecimalRoundTrip(n / 10);
      var s := Decimal(n);
      assert s[..|s| - 1] == Decimal(n / 10);
    }
  }

  // ---------------------------------------------------------------------------
  // Rendering

  /** `%Y`: four digits for years 0..9999, otherwise an explicit sign and at least four digits. */
  function YearText(y: int): string {
    if 0 <= y <= 9999 then FixedDigits(y, 4)
    else (if y < 0 then "-" else "+") + ZeroPadded(if y < 0 then -y else y, 4)
  }

  /** `%Y-%m-%d`. */
  function DateText(dt: DateTime): string {
    YearText(dt.year) + "-" + ZeroPadded(dt.month, 2) + "-" + ZeroPadded(dt.day, 2)
  }

  /** `%H:%M:%S`; the sub-second part is not printed. */
  function ClockText(dt: DateTime): string {
    ZeroPadded(dt.hour, 2) + ":" + ZeroPadded(dt.minute, 2) + ":" + ZeroPadded(dt.second, 2)
  }

  /** `timestamp.format("%Y-%m-%d %H:%M:%S")`. */
  function Format(dt: DateTime): string {
    DateText(dt) + " " + ClockText(dt)
  }

  /** The fractional part `to_string` appends: nothing for whole seconds, otherwise
      a dot and 3, 6 or 9 digits, whichever is the shortest exact form. */
  function FractionText(ns: nat): string {
    if ns == 0 then ""
    else if ns % 1_000_000 == 0 then "." + ZeroPadded(ns / 1_000_000, 3)
    else if ns % 1_000 == 0 then "." + ZeroPadded(ns / 1_000, 6)
    else "." + ZeroPadded(ns, 9)
  }

  /** `current_time.to_string()`. */
  function DisplayText(dt: DateTime): string {
    Format(dt) + FractionText(dt.nanosecond)
  }

  /** Three fields of digits joined by `sep`, as `%Y-%m-%d` and `%H:%M:%S` lay them out. */
  lemma {:induction false} FieldsAt(a: string, b: string, c: string, sep: char)
    requires |b| == 2 && |c| == 2
    ensures var s := a + [sep] + b + [sep] + c;
      |s| == |a| + 6 && s[..|a|] == a && s[|a|] == sep && s[|a| + 1..|a| + 3] == b &&
      s[|a| + 3] == sep && s[|a| + 4..] == c
  {
    var s := a + [sep] + b + [sep] + c;
    assert s[..|a|] == a;
    assert s[|a| + 1..|a| + 3] == b;
    assert s[|a| + 4..] == c;
  }

  /** Reads a `w`-digit field and two two-digit fields, separated by `sep`. */
  function ParseFields(s: string, w: nat, sep: char): Option<(nat, nat, nat)> {
    if |s| == w + 6 && s[w] == sep && s[w + 3] == sep
       && AllDigits(s[..w]) && AllDigits(s[w + 1..w + 3]) && AllDigits(s[w + 4..])
    then Some((DigitsValue(s[..w]), DigitsValue(s[w + 1..w + 3]), DigitsValue(s[w + 4..])))
    else None
  }

  /** Reads a `%Y-%m-%d %H:%M:%S` rendering with a four-digit year back into a date-time. */
  function ParseFormat(s: string): Option<DateTime> {
    if |s| == 19 && s[10] == ' ' then
      match (ParseFields(s[..10], 4, '-'), ParseFields(s[11..], 2, ':'))
      case (Some((y, mo, d)), Some((h, mi, se))) => Some(DateTime(y, mo, d, h, mi, se, 0))
      case _ => None
    else None
  }

  lemma TwoDigitField(n: nat)
    requires n < 100
    ensures |ZeroPadded(n, 2)| == 2 && AllDigits(ZeroPadded(n, 2))
    ensures DigitsValue(ZeroPadded(n, 2)) == n
  {
    FixedDigitsRoundTrip(n, 2);
  }

  lemma DateRoundTrip(dt: DateTime)
    requires Valid(dt) && 0 <= dt.year <= 9999
    ensures |DateText(dt)| == 10
    ensures ParseFields(DateText(dt), 4, '-') == Some((dt.year, dt.month, dt.day))
  {
    FixedDigitsRoundTrip(dt.year, 4);
    TwoDigitField(dt.month);
    TwoDigitField(dt.day);
    FieldsAt(YearText(dt.year), ZeroPadded(dt.month, 2), ZeroPadded(dt.day, 2), '-');
  }

  lemma ClockRoundTrip(dt: DateTime)
    requires Valid(dt)
    ensures |ClockText(dt)| == 8
    ensures ParseFields(ClockText(dt), 2, ':') == Some((dt.hour, dt.minute, dt.second))
  {
    TwoDigitField(dt.hour);
    TwoDigitField(dt.minute);
    TwoDigitField(dt.second);
    FieldsAt(ZeroPadded(dt.hour, 2), ZeroPadded(dt.minute, 2), ZeroPadded(dt.second, 2), ':');
  }

  /** For years 0..9999 the rendering is nineteen characters with every field
      recoverable: it loses the sub-second part and nothing else. */
  lemma FormatRoundTrip(dt: DateTime)
    requires Valid(dt) && 0 <= dt.year <= 9999
    ensures |Format(dt)| == 19
    ensures ParseFormat(Format(dt)) == Some(dt.(nanosecond := 0))
  {
    DateRoundTrip(dt);
    ClockRoundTrip(dt);
    var s := Format(dt);
    assert s[..10] == DateText(dt) && s[10] == ' ' && s[11..] == ClockText(dt);
  }

  lemma NoQuoteInDigits(s: string)
    requires AllDigits(s)
    ensures '\'' !in s
  {
  }

  /** No rendering of a date-time contains a single quote. */
  lemma FormatHasNoQuote(dt: DateTime)
    ensures '\'' !in Format(dt)
  {
    NoQuoteInDigits(ZeroPadded(dt.month, 2));
    NoQuoteInDigits(ZeroPadded(dt.day, 2));
    NoQuoteInDigits(ZeroPadded(dt.hour, 2));
    NoQuoteInDigits(ZeroPadded(dt.minute, 2));
    NoQuoteInDigits(ZeroPadded(dt.second, 2));
    if 0 <= dt.year <= 9999 {
      NoQuoteInDigits(FixedDigits(dt.year, 4));
    } else {
      NoQuoteInDigits(ZeroPadded(if dt.year < 0 then -dt.year else dt.year, 4));
    }
  }
}
