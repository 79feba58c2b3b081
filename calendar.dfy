/** The proleptic Gregorian calendar on day numbers (days since 1970-01-01)
    and the ECMAScript time arithmetic built on it: `Date.UTC`, the
    `getUTC*` accessors and `Date.prototype.toISOString`. */
module Calendar {
  import opened Wrappers
  import opened Text

  const MS_PER_DAY: int := 86400000
  const MS_PER_HOUR: int := 3600000
  const MS_PER_MINUTE: int := 60000
  const MS_PER_SECOND: int := 1000

  /** Largest magnitude of a valid time value (TimeClip). */
  const MAX_TIME: int := 8640000000000000

  datatype Civil = Civil(year: int, month: int, day: int)

  predicate IsLeap(y: int) { y % 4 == 0 && (y % 100 != 0 || y % 400 == 0) }

  function YearLength(y: int): int { if IsLeap(y) then 366 else 365 }

  function MonthLength(y: int, m: int): int
    requires 1 <= m <= 12
  {
    if m == 2 then (if IsLeap(y) then 29 else 28)
    else if m == 4 || m == 6 || m == 9 || m == 11 then 30
    else 31
  }

  predicate ValidCivil(c: Civil) {
    1 <= c.month <= 12 && 1 <= c.day <= MonthLength(c.year, c.month)
  }

  /** Number of leap years among 1..x (counted with floor division, so the
      formula extends to x <= 0). */
  function Leaps(x: int): int { x / 4 - x / 100 + x / 400 }

  /** Day number of January 1 of year y. */
  function YearStart(y: int): int { 365 * (y - 1970) + Leaps(y - 1) - Leaps(1969) }

  /** Days of year y before the first of month m. */
  function MonthStart(y: int, m: int): (r: int)
    requires 1 <= m <= 12
  {
    var base :=
      if m == 1 then 0 else if m == 2 then 31 else if m == 3 then 59
      else if m == 4 then 90 else if m == 5 then 120 else if m == 6 then 151
      else if m == 7 then 181 else if m == 8 then 212 else if m == 9 then 243
      else if m == 10 then 273 else if m == 11 then 304 else 334;
    if m > 2 && IsLeap(y) then base + 1 else base
  }

  /** Day number of a calendar date (any day-of-month, as `Date.UTC` allows). */
  function DaysFromCivil(y: int, m: int, d: int): int
    requires 1 <= m <= 12
  {
    YearStart(y) + MonthStart(y, m) + d - 1
  }

  lemma DivStep4(y: int)
    ensures y / 4 - (y - 1) / 4 == if y % 4 == 0 then 1 else 0
  {
  }

  lemma DivStep100(y: int)
    ensures y / 100 - (y - 1) / 100 == if y % 100 == 0 then 1 else 0
  {
  }

  lemma DivStep400(y: int)
    ensures y / 400 - (y - 1) / 400 == if y % 400 == 0 then 1 else 0
  {
  }

  lemma Divisors(y: int)
    ensures y % 400 == 0 ==> y % 100 == 0
    ensures y % 100 == 0 ==> y % 4 == 0
  {
  }

  lemma LeapStep(y: int)
    ensures Leaps(y) - Leaps(y - 1) == if IsLeap(y) then 1 else 0
  {
    DivStep4(y);
    DivStep100(y);
    DivStep400(y);
    Divisors(y);
  }

  lemma YearStartStep(y: int)
    ensures YearStart(y + 1) == YearStart(y) + YearLength(y)
  {
    LeapStep(y);
  }

  lemma {:induction false} YearStartMonotonic(a: int, b: int)
    requires a <= b
    ensures YearStart(a) <= YearStart(b)
    ensures a < b ==> YearStart(a) + 365 <= YearStart(b)
    decreases b - a
  {
    if a < b {
      YearStartStep(a);
      YearStartMonotonic(a + 1, b);
    }
  }

  /** Four hundred years always hold the same number of days. */
  lemma YearStartEra(c: int)
    ensures YearStart(400 * c) == YearStart(0) + 146097 * c
  {
    assert Leaps(400 * c - 1) == 97 * c - 1;
  }

  /** The year whose days contain day number n, searched in [y, hi). */
  function FindYear(n: int, y: int, hi: int): (r: int)
    requires y < hi && YearStart(y) <= n < YearStart(hi)
    ensures y <= r < hi
    ensures YearStart(r) <= n < YearStart(r + 1)
    decreases hi - y
  {
    if n < YearStart(y + 1) then y else FindYear(n, y + 1, hi)
  }

  /** The month of year y that contains day `rem` of the year, searched
      downwards from month m. */
  function FindMonth(y: int, rem: int, m: int): (r: int)
    requires 1 <= m <= 12 && 0 <= rem
    ensures 1 <= r <= m
    ensures MonthStart(y, r) <= rem
    ensures r < m ==> rem < MonthStart(y, r + 1)
    decreases m
  {
    if MonthStart(y, m) <= rem || m == 1 then m else FindMonth(y, rem, m - 1)
  }

  lemma MonthEnds(y: int, m: int)
    requires 1 <= m <= 12
    ensures m < 12 ==> MonthStart(y, m + 1) == MonthStart(y, m) + MonthLength(y, m)
    ensures m == 12 ==> YearLength(y) == MonthStart(y, m) + MonthLength(y, m)
  {
  }

  /** The calendar date of day number n. */
  function CivilFromDays(n: int): (c: Civil)
    ensures ValidCivil(c)
    ensures DaysFromCivil(c.year, c.month, c.day) == n
  {
    var era := (n - YearStart(0)) / 146097;
    YearStartEra(era);
    YearStartEra(era + 1);
    var y := FindYear(n, 400 * era, 400 * era + 400);
    var rem := n - YearStart(y);
    YearStartStep(y);
    var m := FindMonth(y, rem, 12);
    MonthEnds(y, m);
    Civil(y, m, rem - MonthStart(y, m) + 1)
  }

  /** A year is determined by any day it contains. */
  lemma YearUnique(n: int, a: int, b: int)
    requires YearStart(a) <= n < YearStart(a + 1)
    requires YearStart(b) <= n < YearStart(b + 1)
    ensures a == b
  {
    if a < b {
      YearStartMonotonic(a + 1, b);
    } else if b < a {
      YearStartMonotonic(b + 1, a);
    }
  }

  lemma MonthsOrdered(y: int, a: int, b: int)
    requires 1 <= a < b <= 12
    ensures MonthStart(y, a) + MonthLength(y, a) <= MonthStart(y, b)
  {
  }

  /** Every valid date of year y falls inside that year's days. */
  lemma DayInYear(c: Civil)
    requires ValidCivil(c)
    ensures YearStart(c.year) <= DaysFromCivil(c.year, c.month, c.day) < YearStart(c.year + 1)
  {
    YearStartStep(c.year);
    MonthEnds(c.year, 12);
    if c.month < 12 {
      MonthsOrdered(c.year, c.month, 12);
    }
  }

  /** Within one year, a day of the year is determined by month and day. */
  lemma MonthUnique(y: int, a: int, da: int, b: int, db: int)
    requires 1 <= a <= 12 && 1 <= da <= MonthLength(y, a)
    requires 1 <= b <= 12 && 1 <= db <= MonthLength(y, b)
    requires MonthStart(y, a) + da == MonthStart(y, b) + db
    ensures a == b && da == db
  {
    if a < b {
      MonthsOrdered(y, a, b);
    } else if b < a {
      MonthsOrdered(y, b, a);
    }
  }

  /** Converting a valid date to its day number and back gives the date. */
  lemma CivilRoundTrip(c: Civil)
    requires ValidCivil(c)
    ensures CivilFromDays(DaysFromCivil(c.year, c.month, c.day)) == c
  {
    var n := DaysFromCivil(c.year, c.month, c.day);
    var r := CivilFromDays(n);
    DayInYear(c);
    DayInYear(r);
    YearUnique(n, r.year, c.year);
    MonthUnique(c.year, r.month, r.day, c.month, c.day);
  }

  // ---------------------------------------------------------------- Date.UTC

  /** The year `Date.UTC` uses: 0 to 99 stand for 1900 to 1999. */
  function UtcYear(year: int): int { if 0 <= year <= 99 then 1900 + year else year }

  /** MakeDay: month indexes outside 0..11 carry into the year; days
      outside the month carry into the next months. */
  function MakeDay(year: int, monthIndex: int, day: int): int
  {
    var y := year + monthIndex / 12;
    var m := monthIndex % 12;
    DaysFromCivil(y, m + 1, 1) + day - 1
  }

  /** `Date.UTC(year, monthIndex, day, hours, minutes, seconds)` before
      TimeClip. */
  function DateUtc(year: int, monthIndex: int, day: int, h: int, mi: int, s: int): int
  {
    MakeDay(UtcYear(year), monthIndex, day) * MS_PER_DAY + h * MS_PER_HOUR + mi * MS_PER_MINUTE + s * MS_PER_SECOND
  }

  /** `new Date(t)`: a time value, or None for an Invalid Date. */
  function TimeClip(t: int): Option<int>
  {
    if -MAX_TIME <= t <= MAX_TIME then Some(t) else None
  }

  lemma MakeDayOfValid(c: Civil)
    requires ValidCivil(c)
    ensures MakeDay(c.year, c.month - 1, c.day) == DaysFromCivil(c.year, c.month, c.day)
  {
  }

  // ---------------------------------------------------------------- getUTC*

  datatype UtcParts = UtcParts(date: Civil, hours: int, minutes: int, seconds: int, millis: int)

  /** The `getUTCFullYear` ... `getUTCMilliseconds` readings of a time value. */
  function UtcPartsOf(t: int): (p: UtcParts)
    ensures ValidCivil(p.date)
    ensures 0 <= p.hours < 24 && 0 <= p.minutes < 60 && 0 <= p.seconds < 60 && 0 <= p.millis < 1000
  {
    var day := t / MS_PER_DAY;
    var inDay := t % MS_PER_DAY;
    UtcParts(CivilFromDays(day), inDay / MS_PER_HOUR, (inDay / MS_PER_MINUTE) % 60,
             (inDay / MS_PER_SECOND) % 60, inDay % 1000)
  }

  /** The UTC calendar date of an instant at midnight of a day is that day. */
  lemma UtcDateOfDayStart(c: Civil)
    requires ValidCivil(c)
    ensures UtcPartsOf(DaysFromCivil(c.year, c.month, c.day) * MS_PER_DAY).date == c
  {
    var n := DaysFromCivil(c.year, c.month, c.day);
    assert (n * MS_PER_DAY) / MS_PER_DAY == n;
    CivilRoundTrip(c);
  }

  // ---------------------------------------------------------------- formatting

  /** `String(n).padStart(width, '0')` for an integer n (a negative number
      keeps its sign in front of the padding zeros' position, as JavaScript
      pads the whole text). */
  function PadInt(n: int, width: nat): string
  {
    PadStart(IntToString(n), width, '0')
  }

  /** `YYYY-MM-DD` of a calendar date, as the UTC and the offset renderings
      both write it. */
  function DateText(c: Civil): string
  {
    PadInt(c.year, 4) + "-" + PadInt(c.month, 2) + "-" + PadInt(c.day, 2)
  }

  /** The year field of `toISOString`: four digits in 0..9999, otherwise a
      sign and six digits. */
  function IsoYear(y: int): string
  {
    if 0 <= y <= 9999 then PadInt(y, 4)
    else (if y < 0 then "-" else "+") + PadStart(NatToString(if y < 0 then -y else y), 6, '0')
  }

  /** `new Date(t).toISOString()`; None where JavaScript throws a RangeError
      (an Invalid Date). */
  function ToIsoString(t: int): (r: Option<string>)
    ensures r.None? <==> TimeClip(t).None?
    ensures r.Some? ==> |r.value| >= 24
  {
    if TimeClip(t).None? then None
    else
      var p := UtcPartsOf(t);
      Some(IsoYear(p.date.year) + "-" + PadInt(p.date.month, 2) + "-" + PadInt(p.date.day, 2)
           + "T" + PadInt(p.hours, 2) + ":" + PadInt(p.minutes, 2) + ":" + PadInt(p.seconds, 2)
           + "." + PadInt(p.millis, 3) + "Z")
  }
}
