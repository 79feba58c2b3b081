/** Chile local time under a fixed numeric offset (in minutes): the only path
    of the time helpers that does not go through the IANA time-zone database.
    A JavaScript `Date` is an `Option<int>` of epoch milliseconds, None being
    an Invalid Date; a thrown error is `Err(message)`. */
module ChileTime {
  import opened Wrappers
  import opened Text
  import opened JsNumber
  import opened Calendar

  /** What the helpers accept: a `Date`, a number of milliseconds or a
      string; a string carries the instant the host's `Date` parser reads
      from it (`new Date(s)`), which is used only when it is not a
      `YYYY-MM-DD` string. */
  datatype DateInput = DateValue(time: Option<int>) | Millis(ms: int) | DateString(s: string, parsed: Option<int>)

  /** The text the helpers produce for the seven fields of a local time. */
  datatype ZonedParts = ZonedParts(year: string, month: string, day: string,
                                   hour: string, minute: string, second: string, fraction: string)

  /** Strings matched by `/^\d{4}-\d{2}-\d{2}$/`. */
  predicate IsDateOnly(s: string) {
    |s| == 10 && s[4] == '-' && s[7] == '-'
    && AllDigits(s[..4]) && AllDigits(s[5..7]) && AllDigits(s[8..])
  }

  /** The instant, offset minutes ahead, whose UTC fields are the local ones. */
  function Shifted(offset: int, date: Option<int>): (r: Option<int>)
    ensures r.Some? ==> date.Some? && r.value == date.value + offset * MS_PER_MINUTE
  {
    if date.None? then None else TimeClip(date.value + offset * MS_PER_MINUTE)
  }

  /** `getZonedParts` under an override: the UTC fields of the shifted
      instant, zero-padded; an invalid instant renders `NaN` in every field
      (`'NaN'.padStart(4, '0')` is `'0NaN'`). */
  function ZonedPartsOf(offset: int, date: Option<int>): ZonedParts
  {
    match Shifted(offset, date)
    case None => ZonedParts("0NaN", "NaN", "NaN", "NaN", "NaN", "NaN", "NaN")
    case Some(t) =>
      var p := UtcPartsOf(t);
      ZonedParts(PadInt(p.date.year, 4), PadInt(p.date.month, 2), PadInt(p.date.day, 2),
                 PadInt(p.hours, 2), PadInt(p.minutes, 2), PadInt(p.seconds, 2), PadInt(p.millis, 3))
  }

  /** `getOffsetMinutes` under an override: the override, whatever the instant. */
  function OffsetMinutes(offset: int, date: Option<int>): int
  {
    offset
  }

  /** The offset does not depend on the instant it is asked about. */
  lemma OffsetIgnoresInstant(offset: int, a: Option<int>, b: Option<int>)
    ensures OffsetMinutes(offset, a) == OffsetMinutes(offset, b) == offset
  {
  }

  function Abs(x: int): nat { if x < 0 then -x else x }

  /** `offsetToString`: a sign (`-` also for zero), then hours and minutes
      of the magnitude, each at least two digits. */
  function OffsetToString(o: int): string
  {
    [if o <= 0 then '-' else '+'] + PadNat(Abs(o) / 60, 2) + [':'] + PadNat(Abs(o) % 60, 2)
  }

  /** The offset text is a sign, the hours of the magnitude in at least two
      digits, a colon and its minutes in two digits. */
  lemma OffsetToStringShape(o: int)
    ensures var r := OffsetToString(o);
            && |r| >= 6 && r[|r| - 3] == ':'
            && r[0] == (if o <= 0 then '-' else '+')
            && AllDigits(r[1..|r| - 3]) && DigitsValue(r[1..|r| - 3]) == Abs(o) / 60
            && AllDigits(r[|r| - 2..]) && DigitsValue(r[|r| - 2..]) == Abs(o) % 60
  {
    var r := OffsetToString(o);
    var hours := PadNat(Abs(o) / 60, 2);
    var minutes := PadNat(Abs(o) % 60, 2);
    PadNatLength(Abs(o) % 60, 2);
    assert |r| == |hours| + 4;
    assert r[1..|r| - 3] == hours;
    assert r[|r| - 2..] == minutes;
  }

  /** `Number(v)` of each `-`-separated part, as `split('-').map(Number)`. */
  function DateNumbers(s: string): (r: seq<Option<int>>)
    ensures |r| == |Split(s, '-')| && |r| >= 1
  {
    var parts := Split(s, '-');
    seq(|parts|, i requires 0 <= i < |parts| => ToNumber(parts[i]))
  }

  /** Some destructured component is NaN (a missing one is `undefined`,
      which `Number.isNaN` does not flag). */
  predicate HasNaNComponent(nums: seq<Option<int>>) {
    || (|nums| > 0 && nums[0].None?)
    || (|nums| > 1 && nums[1].None?)
    || (|nums| > 2 && nums[2].None?)
  }

  /** `new Date(Date.UTC(y, m - 1, d, 0, 0, 0) - offset * 60000)`; a missing
      month or day makes the arithmetic NaN. */
  function ChileMidnight(offset: int, year: int, month: Option<int>, day: Option<int>): (r: Option<int>)
    ensures r.Some? ==> month.Some? && day.Some?
    ensures r.Some? ==> r.value == DateUtc(year, month.value - 1, day.value, 0, 0, 0) - offset * MS_PER_MINUTE
  {
    if month.None? || day.None? then None
    else match TimeClip(DateUtc(year, month.value - 1, day.value, 0, 0, 0))
      case None => None
      case Some(u) => TimeClip(u - offset * MS_PER_MINUTE)
  }

  /** `fromChileDateOnly`: throws when a component is NaN, otherwise the UTC
      instant of local midnight of that calendar day. */
  function FromChileDateOnly(offset: int, s: string): Result<Option<int>, string>
  {
    var nums := DateNumbers(s);
    if HasNaNComponent(nums) then Err("Invalid Chile date string: " + s)
    else
      assert nums[0].Some?;
      var month := if |nums| > 1 then Some(nums[1].value) else None;
      var day := if |nums| > 2 then Some(nums[2].value) else None;
      assert |nums| > 1 ==> nums[1].Some?;
      Ok(ChileMidnight(offset, nums[0].value, month, day))
  }

  /** `fromChileDateOnly` throws exactly when a component is NaN, with the
      string in the message; otherwise it is local midnight of the three
      components, or an Invalid Date when month or day is missing. */
  lemma FromChileDateOnlyCases(offset: int, s: string)
    ensures var r := FromChileDateOnly(offset, s);
            && (r.Err? <==> HasNaNComponent(DateNumbers(s)))
            && (r.Err? ==> r.error == "Invalid Chile date string: " + s)
            && (r.Ok? && |DateNumbers(s)| >= 3 ==>
                  r.value == ChileMidnight(offset, DateNumbers(s)[0].value, DateNumbers(s)[1], DateNumbers(s)[2]))
            && (r.Ok? && |DateNumbers(s)| < 3 ==> r.value.None?)
  {
  }

  /** `toDate`: a `YYYY-MM-DD` string is a local calendar day; any other
      string is what the host's `Date` parser made of it. */
  function ToDate(offset: int, input: DateInput): Option<int>
  {
    match input
    case DateValue(t) => t
    case Millis(ms) => TimeClip(ms)
    case DateString(s, parsed) =>
      if IsDateOnly(s) then
        DateOnlyNumbers(s);
        FromChileDateOnlyCases(offset, s);
        FromChileDateOnly(offset, s).value
      else parsed
  }

  /** `YYYY-MM-DD` part of a rendering. */
  function DateHead(p: ZonedParts): string
  {
    p.year + "-" + p.month + "-" + p.day
  }

  /** The template of `toChileISOString`, from the parts and the offset. */
  function IsoText(p: ZonedParts, offset: string): (r: string)
    ensures |DateHead(p)| <= |r| && r[..|DateHead(p)|] == DateHead(p)
  {
    var head := DateHead(p);
    var r := head + "T" + p.hour + ":" + p.minute + ":" + p.second + "." + p.fraction + offset;
    assert r == head + ("T" + p.hour + ":" + p.minute + ":" + p.second + "." + p.fraction + offset);
    r
  }

  /** `toChileISOString` of a `Date`. */
  function IsoOfDate(offset: int, date: Option<int>): string
  {
    IsoText(ZonedPartsOf(offset, date), OffsetToString(OffsetMinutes(offset, date)))
  }

  /** `s.slice(0, n)`. */
  function Prefix(s: string, n: nat): (r: string)
    ensures |r| == if |s| <= n then |s| else n
    ensures r == s[..|r|]
  {
    if |s| <= n then s else s[..n]
  }

  /** `toChileDateString` of a `Date`: the first ten characters of its ISO
      rendering. */
  function LocalDateString(offset: int, date: Option<int>): string
  {
    Prefix(IsoOfDate(offset, date), 10)
  }

  /** `startOfChileDay` of a `Date`: local midnight of its local date. */
  function StartOfDayOf(offset: int, date: Option<int>): Result<Option<int>, string>
  {
    FromChileDateOnly(offset, LocalDateString(offset, date))
  }

  /** The end of a day from its start: one millisecond before the next
      day starts; an error or an Invalid Date passes through. */
  function DayEndFrom(start: Result<Option<int>, string>): (r: Result<Option<int>, string>)
    ensures r.Err? <==> start.Err?
    ensures r.Err? ==> r.error == start.error
    ensures r.Ok? && r.value.Some? ==> start == Ok(Some(r.value.value - MS_PER_DAY + 1))
    ensures start.Ok? && start.value.Some? && -MAX_TIME <= start.value.value
            && start.value.value + MS_PER_DAY - 1 <= MAX_TIME ==>
              r == Ok(Some(start.value.value + MS_PER_DAY - 1))
  {
    match start
    case Err(e) => Err(e)
    case Ok(None) => Ok(None)
    case Ok(Some(s)) => Ok(TimeClip(s + MS_PER_DAY - 1))
  }

  /** `endOfChileDay` of a `Date`. */
  function EndOfDayOf(offset: int, date: Option<int>): Result<Option<int>, string>
  {
    DayEndFrom(StartOfDayOf(offset, date))
  }

  /** `toChileISOString`. */
  function ToChileIsoString(offset: int, input: DateInput): string
  {
    IsoOfDate(offset, ToDate(offset, input))
  }

  /** `toChileDateString`. */
  function ToChileDateString(offset: int, input: DateInput): string
  {
    LocalDateString(offset, ToDate(offset, input))
  }

  /** `startOfChileDay`. */
  function StartOfChileDay(offset: int, input: DateInput): Result<Option<int>, string>
  {
    StartOfDayOf(offset, ToDate(offset, input))
  }

  /** `endOfChileDay`. */
  function EndOfChileDay(offset: int, input: DateInput): Result<Option<int>, string>
  {
    EndOfDayOf(offset, ToDate(offset, input))
  }

  datatype DateRange = DateRange(isoFrom: Option<string>, isoTo: Option<string>)

  /** The message of the RangeError `toISOString` throws on an Invalid Date. */
  const INVALID_TIME_VALUE: string := "Invalid time value"

  /** `date.toISOString()` of a result that may already be a thrown error. */
  function IsoOf(d: Result<Option<int>, string>): (r: Result<string, string>)
    ensures d.Err? ==> r == Err(d.error)
    ensures d.Ok? && d.value.None? ==> r == Err(INVALID_TIME_VALUE)
  {
    match d
    case Err(e) => Err(e)
    case Ok(None) => Err(INVALID_TIME_VALUE)
    case Ok(Some(t)) =>
      match ToIsoString(t)
      case None => Err(INVALID_TIME_VALUE)
      case Some(iso) => Ok(iso)
  }

  /** `chileDateRange`: an absent or empty bound stays null; the lower bound
      is local midnight of `from`, the upper the end of the local day of `to`. */
  function ChileDateRange(offset: int, from: Option<string>, to: Option<string>, toParsed: Option<int>)
    : (r: Result<DateRange, string>)
    ensures r.Ok? && (from.None? || from == Some("")) ==> r.value.isoFrom.None?
    ensures r.Ok? && (to.None? || to == Some("")) ==> r.value.isoTo.None?
    ensures (from.None? || from == Some("")) && (to.None? || to == Some("")) ==> r == Ok(DateRange(None, None))
    ensures r.Ok? && from.Some? && from.value != "" ==>
              r.value.isoFrom.Some? && IsoOf(FromChileDateOnly(offset, from.value)) == Ok(r.value.isoFrom.value)
    ensures r.Ok? && to.Some? && to.value != "" ==>
              r.value.isoTo.Some? && IsoOf(EndOfChileDay(offset, DateString(to.value, toParsed))) == Ok(r.value.isoTo.value)
    ensures r.Err? <==>
              || (from.Some? && from.value != "" && IsoOf(FromChileDateOnly(offset, from.value)).Err?)
              || (to.Some? && to.value != "" && IsoOf(EndOfChileDay(offset, DateString(to.value, toParsed))).Err?)
    ensures r.Err? && from.Some? && from.value != "" && IsoOf(FromChileDateOnly(offset, from.value)).Err? ==>
              r.error == IsoOf(FromChileDateOnly(offset, from.value)).error
  {
    var isoFrom: Result<Option<string>, string> :=
      if from.None? || from.value == "" then Ok(None)
      else match IsoOf(FromChileDateOnly(offset, from.value))
        case Err(e) => Err(e)
        case Ok(v) => Ok(Some(v));
    if isoFrom.Err? then Err(isoFrom.error)
    else
      var isoTo: Result<Option<string>, string> :=
        if to.None? || to.value == "" then Ok(None)
        else match IsoOf(EndOfChileDay(offset, DateString(to.value, toParsed)))
          case Err(e) => Err(e)
          case Ok(v) => Ok(Some(v));
      if isoTo.Err? then Err(isoTo.error) else Ok(DateRange(isoFrom.value, isoTo.value))
  }

  // ---------------------------------------------------------------- lemmas

  /** A `Date` is taken as it is; a `YYYY-MM-DD` string is what
      `fromChileDateOnly` makes of it. */
  lemma ToDateCases(offset: int, input: DateInput)
    ensures input.DateValue? ==> ToDate(offset, input) == input.time
    ensures input.DateString? && IsDateOnly(input.s) ==>
              FromChileDateOnly(offset, input.s) == Ok(ToDate(offset, input))
  {
    if input.DateString? && IsDateOnly(input.s) {
      DateOnlyNumbers(input.s);
      FromChileDateOnlyCases(offset, input.s);
    }
  }

  /** The local date string is the first ten characters of the ISO
      rendering, and `startOfChileDay` reads it back with
      `fromChileDateOnly`. */
  lemma ChileDateStringIsPrefix(offset: int, input: DateInput)
    ensures var r := ToChileDateString(offset, input);
            && |r| <= 10 && r == ToChileIsoString(offset, input)[..|r|]
            && StartOfChileDay(offset, input) == FromChileDateOnly(offset, r)
  {
  }

  lemma DigitsHaveNoDash(x: string)
    requires AllDigits(x)
    ensures '-' !in x
  {
  }

  /** A `YYYY-MM-DD` string splits at its two dashes. */
  lemma DateOnlySplit(s: string)
    requires IsDateOnly(s)
    ensures Split(s, '-') == [s[..4], s[5..7], s[8..]]
  {
    DigitsHaveNoDash(s[..4]);
    DigitsHaveNoDash(s[5..7]);
    DigitsHaveNoDash(s[8..]);
    var tail := s[5..7] + ['-'] + s[8..];
    assert s == s[..4] + ['-'] + tail;
    SplitPrefix(s[..4], tail, '-');
    SplitPrefix(s[5..7], s[8..], '-');
    SplitNoSeparator(s[8..], '-');
  }

  /** A digit-only part reads as its value. */
  lemma NumberOfPart(s: string, i: nat)
    requires i < |Split(s, '-')| && AllDigits(Split(s, '-')[i])
    ensures i < |DateNumbers(s)| && DateNumbers(s)[i] == Some(DigitsValue(Split(s, '-')[i]))
  {
    ToNumberDigits(Split(s, '-')[i]);
  }

  /** The three parts of a `YYYY-MM-DD` string read as numbers. */
  lemma DateOnlyNumbers(s: string)
    requires IsDateOnly(s)
    ensures !HasNaNComponent(DateNumbers(s))
    ensures |DateNumbers(s)| == 3
    ensures DateNumbers(s)[0] == Some(DateOnlyFields(s).year)
    ensures DateNumbers(s)[1] == Some(DateOnlyFields(s).month)
    ensures DateNumbers(s)[2] == Some(DateOnlyFields(s).day)
  {
    DateOnlySplit(s);
    var parts := Split(s, '-');
    assert AllDigits(parts[0]) && AllDigits(parts[1]) && AllDigits(parts[2]);
    NumberOfPart(s, 0);
    NumberOfPart(s, 1);
    NumberOfPart(s, 2);
    var nums := DateNumbers(s);
    assert |nums| == 3;
    assert nums[0] == Some(DigitsValue(s[..4]));
    assert nums[1] == Some(DigitsValue(s[5..7]));
    assert nums[2] == Some(DigitsValue(s[8..]));
  }

  /** The `YYYY-MM-DD` rendering of a date with a four-digit year. */
  lemma DateTextShape(c: Civil)
    requires ValidCivil(c) && 0 <= c.year <= 9999
    ensures DateText(c) == PadNat(c.year, 4) + "-" + PadNat(c.month, 2) + "-" + PadNat(c.day, 2)
    ensures |PadNat(c.year, 4)| == 4 && |PadNat(c.month, 2)| == 2 && |PadNat(c.day, 2)| == 2
    ensures IsDateOnly(DateText(c))
  {
    assert Pow10(4) == 10000;
    PadNatLength(c.year, 4);
    PadNatLength(c.month, 2);
    PadNatLength(c.day, 2);
    PadIntNat(c.year, 4);
    PadIntNat(c.month, 2);
    PadIntNat(c.day, 2);
    DashedShape(PadNat(c.year, 4), PadNat(c.month, 2), PadNat(c.day, 2));
  }

  /** Four digits, a dash, two digits, a dash and two digits. */
  lemma DashedShape(y: string, m: string, d: string)
    requires |y| == 4 && |m| == 2 && |d| == 2 && AllDigits(y) && AllDigits(m) && AllDigits(d)
    ensures var s := y + "-" + m + "-" + d;
            IsDateOnly(s) && s[..4] == y && s[5..7] == m && s[8..] == d
  {
    var s := y + "-" + m + "-" + d;
    assert s[..4] == y;
    assert s[5..7] == m;
    assert s[8..] == d;
  }

  /** The calendar fields written in a `YYYY-MM-DD` string. */
  function DateOnlyFields(s: string): (c: Civil)
    requires IsDateOnly(s)
    ensures 0 <= c.year <= 9999 && 0 <= c.month <= 99 && 0 <= c.day <= 99
  {
    DigitsValueBound(s[..4]);
    DigitsValueBound(s[5..7]);
    DigitsValueBound(s[8..]);
    assert Pow10(4) == 10000;
    Civil(DigitsValue(s[..4]), DigitsValue(s[5..7]), DigitsValue(s[8..]))
  }

  /** Two `YYYY-MM-DD` strings with the same fields are the same string. */
  lemma DateOnlyFieldsDetermine(s: string, r: string)
    requires IsDateOnly(s) && IsDateOnly(r) && DateOnlyFields(s) == DateOnlyFields(r)
    ensures s == r
  {
    DigitsValueInjective(s[..4], r[..4]);
    DigitsValueInjective(s[5..7], r[5..7]);
    DigitsValueInjective(s[8..], r[8..]);
    assert s == s[..4] + [s[4]] + s[5..7] + [s[7]] + s[8..];
    assert r == r[..4] + [r[4]] + r[5..7] + [r[7]] + r[8..];
  }

  /** Local midnight of a valid date with a four-digit year. */
  lemma MidnightOfValid(offset: int, year: int, full: int, month: int, day: int)
    requires full == UtcYear(year) && ValidCivil(Civil(full, month, day)) && 0 <= full <= 9999
    requires -1000000 <= offset <= 1000000
    ensures ChileMidnight(offset, year, Some(month), Some(day))
         == Some(DaysFromCivil(full, month, day) * MS_PER_DAY - offset * MS_PER_MINUTE)
  {
    var n := UtcMidnight(year, full, month, day);
    assert TimeClip(n * MS_PER_DAY) == Some(n * MS_PER_DAY);
    assert TimeClip(n * MS_PER_DAY - offset * MS_PER_MINUTE) == Some(n * MS_PER_DAY - offset * MS_PER_MINUTE);
  }

  /** `Date.UTC(year, month - 1, day)` of a valid date with a four-digit
      year is the start of its day number n, which lies well inside the
      time range. */
  lemma UtcMidnight(year: int, full: int, month: int, day: int) returns (n: int)
    requires full == UtcYear(year) && ValidCivil(Civil(full, month, day)) && 0 <= full <= 9999
    ensures n == DaysFromCivil(full, month, day)
    ensures DateUtc(year, month - 1, day, 0, 0, 0) == n * MS_PER_DAY
    ensures -800000 <= n <= 3000000
  {
    var c2 := Civil(full, month, day);
    n := DaysFromCivil(c2.year, c2.month, c2.day);
    MakeDayOfValid(c2);
    DayBounds(c2);
  }

  /** `fromChileDateOnly` of a `YYYY-MM-DD` string naming a real date is
      local midnight of that date, the year read the way `Date.UTC` reads
      it (0 to 99 meaning 1900 to 1999). */
  lemma FromDateFields(offset: int, s: string, c: Civil, full: int)
    requires IsDateOnly(s) && DateOnlyFields(s) == c
    requires full == UtcYear(c.year) && ValidCivil(Civil(full, c.month, c.day))
    requires -1000000 <= offset <= 1000000
    ensures FromChileDateOnly(offset, s)
         == Ok(Some(DaysFromCivil(full, c.month, c.day) * MS_PER_DAY - offset * MS_PER_MINUTE))
  {
    assert 0 <= c.year <= 9999;
    MidnightOfFields(offset, c, full);
    DateOnlyMidnight(offset, s, c);
  }

  /** Local midnight of a real date, given by its fields. */
  lemma MidnightOfFields(offset: int, c: Civil, full: int)
    requires 0 <= c.year <= 9999
    requires full == UtcYear(c.year) && ValidCivil(Civil(full, c.month, c.day))
    requires -1000000 <= offset <= 1000000
    ensures ChileMidnight(offset, c.year, Some(c.month), Some(c.day)) == Some(DaysFromCivil(full, c.month, c.day) * MS_PER_DAY - offset * MS_PER_MINUTE)
  {
    MidnightOfValid(offset, c.year, full, c.month, c.day);
  }

  /** A `YYYY-MM-DD` text reads as local midnight of its three fields. */
  lemma DateOnlyMidnight(offset: int, s: string, c: Civil)
    requires IsDateOnly(s) && DateOnlyFields(s) == c
    ensures FromChileDateOnly(offset, s) == Ok(ChileMidnight(offset, c.year, Some(c.month), Some(c.day)))
  {
    DateOnlyNumbers(s);
    FromThreeNumbers(offset, s, c.year, c.month, c.day);
  }

  /** Three numeric components make `fromChileDateOnly` local midnight of
      them. */
  lemma FromThreeNumbers(offset: int, s: string, y: int, m: int, d: int)
    requires |DateNumbers(s)| == 3
    requires DateNumbers(s)[0] == Some(y) && DateNumbers(s)[1] == Some(m) && DateNumbers(s)[2] == Some(d)
    ensures FromChileDateOnly(offset, s) == Ok(ChileMidnight(offset, y, Some(m), Some(d)))
  {
  }

  /** Day numbers of four-digit years stay far inside the time range. */
  lemma DayBounds(c: Civil)
    requires ValidCivil(c) && 0 <= c.year <= 9999
    ensures -800000 <= DaysFromCivil(c.year, c.month, c.day) <= 3000000
  {
    DayInYear(c);
    YearStartMonotonic(0, c.year);
    YearStartMonotonic(c.year + 1, 10000);
  }

  /** The local date string of an instant lying on local day c is a
      `YYYY-MM-DD` string with the fields of c. */
  lemma LocalDateFields(offset: int, t: int, c: Civil)
    requires ValidCivil(c) && 0 <= c.year <= 9999
    requires -1000000 <= offset <= 1000000
    requires DaysFromCivil(c.year, c.month, c.day) * MS_PER_DAY <= t + offset * MS_PER_MINUTE
             < DaysFromCivil(c.year, c.month, c.day) * MS_PER_DAY + MS_PER_DAY
    ensures IsDateOnly(LocalDateString(offset, Some(t)))
    ensures DateOnlyFields(LocalDateString(offset, Some(t))) == c
  {
    LocalDateOf(offset, t, c);
    DateTextFields(c);
  }

  /** `YYYY-MM-DD` rendering of a date in years 0 to 9999 reads back as
      that date. */
  lemma DateTextFields(c: Civil)
    requires ValidCivil(c) && 0 <= c.year <= 9999
    ensures IsDateOnly(DateText(c)) && DateOnlyFields(DateText(c)) == c
  {
    DateTextShape(c);
    var s := DateText(c);
    assert s[..4] == PadNat(c.year, 4);
    assert s[5..7] == PadNat(c.month, 2);
    assert s[8..] == PadNat(c.day, 2);
  }

  /** Under an override, the local date string of local midnight of a
      `YYYY-MM-DD` string naming a real date in years 100 to 9999 is that
      string. */
  lemma DateOnlyRoundTrip(offset: int, s: string, parsed: Option<int>)
    requires IsDateOnly(s) && ValidCivil(DateOnlyFields(s)) && 100 <= DateOnlyFields(s).year
    requires -1000000 <= offset <= 1000000
    ensures ToChileDateString(offset, DateString(s, parsed)) == s
  {
    var c := DateOnlyFields(s);
    assert UtcYear(c.year) == c.year;
    var t := DateOnlyInstant(offset, s, parsed, c, c.year);
    DateStringOfInput(offset, DateString(s, parsed), Some(t));
    LocalDateFields(offset, t, c);
    DateOnlyFieldsDetermine(s, ToChileDateString(offset, DateString(s, parsed)));
  }

  /** Years 0 to 99 come back shifted into the 1900s: `'0050-03-01'` is
      rendered as `'1950-03-01'`. */
  lemma TwoDigitYearShift(offset: int, s: string, parsed: Option<int>)
    requires IsDateOnly(s) && DateOnlyFields(s).year <= 99
    requires var c := DateOnlyFields(s); ValidCivil(Civil(c.year + 1900, c.month, c.day))
    requires -1000000 <= offset <= 1000000
    ensures var r := ToChileDateString(offset, DateString(s, parsed));
            IsDateOnly(r) && DateOnlyFields(r).year == DateOnlyFields(s).year + 1900
            && r[4..] == s[4..]
  {
    var c := DateOnlyFields(s);
    var c2 := Civil(c.year + 1900, c.month, c.day);
    assert UtcYear(c.year) == c2.year;
    var t := DateOnlyInstant(offset, s, parsed, c, c2.year);
    DateStringOfInput(offset, DateString(s, parsed), Some(t));
    LocalDateFields(offset, t, c2);
    var r := ToChileDateString(offset, DateString(s, parsed));
    SameMonthDay(r, s);
  }

  /** Two `YYYY-MM-DD` strings with the same month and day agree from the
      first dash on. */
  lemma SameMonthDay(r: string, s: string)
    requires IsDateOnly(r) && IsDateOnly(s)
    requires DateOnlyFields(r).month == DateOnlyFields(s).month
    requires DateOnlyFields(r).day == DateOnlyFields(s).day
    ensures r[4..] == s[4..]
  {
    DigitsValueInjective(r[5..7], s[5..7]);
    DigitsValueInjective(r[8..], s[8..]);
    assert r[4..] == [r[4]] + r[5..7] + [r[7]] + r[8..];
    assert s[4..] == [s[4]] + s[5..7] + [s[7]] + s[8..];
  }

  /** A `YYYY-MM-DD` string naming a real date denotes local midnight of
      that date, and its local date string is that of the instant. */
  lemma DateOnlyInstant(offset: int, s: string, parsed: Option<int>, c: Civil, full: int) returns (t: int)
    requires IsDateOnly(s) && DateOnlyFields(s) == c
    requires full == UtcYear(c.year) && ValidCivil(Civil(full, c.month, c.day))
    requires -1000000 <= offset <= 1000000
    ensures t == DaysFromCivil(full, c.month, c.day) * MS_PER_DAY - offset * MS_PER_MINUTE
    ensures ToDate(offset, DateString(s, parsed)) == Some(t)
  {
    FromDateFields(offset, s, c, full);
    var r := FromChileDateOnly(offset, s);
    t := r.value.value;
    DateOnlyToDate(offset, s, parsed, r.value);
  }

  /** A `YYYY-MM-DD` string denotes what `fromChileDateOnly` makes of it. */
  lemma DateOnlyToDate(offset: int, s: string, parsed: Option<int>, date: Option<int>)
    requires IsDateOnly(s) && FromChileDateOnly(offset, s) == Ok(date)
    ensures ToDate(offset, DateString(s, parsed)) == date
  {
  }

  /** Rendering depends on the input only through the `Date` it denotes. */
  lemma DateStringOfInput(offset: int, input: DateInput, date: Option<int>)
    requires ToDate(offset, input) == date
    ensures ToChileDateString(offset, input) == LocalDateString(offset, date)
  {
  }

  /** The local date string of an instant lying on local day c is DateText(c). */
  lemma LocalDateOf(offset: int, t: int, c: Civil)
    requires ValidCivil(c) && 0 <= c.year <= 9999
    requires -1000000 <= offset <= 1000000
    requires DaysFromCivil(c.year, c.month, c.day) * MS_PER_DAY <= t + offset * MS_PER_MINUTE
             < DaysFromCivil(c.year, c.month, c.day) * MS_PER_DAY + MS_PER_DAY
    ensures LocalDateString(offset, Some(t)) == DateText(c)
  {
    DayBounds(c);
    var n := DaysFromCivil(c.year, c.month, c.day);
    var u := t + offset * MS_PER_MINUTE;
    assert TimeClip(u) == Some(u);
    assert Shifted(offset, Some(t)) == Some(u);
    assert u / MS_PER_DAY == n;
    CivilRoundTrip(c);
    assert UtcPartsOf(u).date == c;
    DateTextShape(c);
    PadIntNat(c.year, 4);
    PadIntNat(c.month, 2);
    PadIntNat(c.day, 2);
    var p := ZonedPartsOf(offset, Some(t));
    assert p.year == PadNat(c.year, 4);
    assert p.year + "-" + p.month + "-" + p.day == DateText(c);
  }

  lemma PadIntNat(n: nat, w: nat)
    ensures PadInt(n, w) == PadNat(n, w)
  {
  }

  /** Under an override, an instant lying on local day c (a real date in
      years 100 to 9999) has its local day start at local midnight of c, at
      or before the instant and less than a day before it, and end one
      millisecond before the next local midnight. */
  lemma DayContainsInstant(offset: int, t: int, c: Civil)
    requires ValidCivil(c) && 100 <= c.year <= 9999
    requires -1000000 <= offset <= 1000000
    requires DaysFromCivil(c.year, c.month, c.day) * MS_PER_DAY <= t + offset * MS_PER_MINUTE
             < DaysFromCivil(c.year, c.month, c.day) * MS_PER_DAY + MS_PER_DAY
    ensures StartOfDayOf(offset, Some(t))
         == Ok(Some(DaysFromCivil(c.year, c.month, c.day) * MS_PER_DAY - offset * MS_PER_MINUTE))
    ensures var start := DaysFromCivil(c.year, c.month, c.day) * MS_PER_DAY - offset * MS_PER_MINUTE;
            start <= t < start + MS_PER_DAY
            && EndOfDayOf(offset, Some(t)) == Ok(Some(start + MS_PER_DAY - 1))
  {
    StartOfLocalDay(offset, t, c);
    var start := DaysFromCivil(c.year, c.month, c.day) * MS_PER_DAY - offset * MS_PER_MINUTE;
    assert -MAX_TIME <= start && start + MS_PER_DAY - 1 <= MAX_TIME by {
      DayBounds(c);
    }
    EndFromStart(offset, Some(t), start);
  }

  /** The day ends one millisecond before the next day starts. */
  lemma EndFromStart(offset: int, date: Option<int>, start: int)
    requires StartOfDayOf(offset, date) == Ok(Some(start))
    requires -MAX_TIME <= start && start + MS_PER_DAY - 1 <= MAX_TIME
    ensures EndOfDayOf(offset, date) == Ok(Some(start + MS_PER_DAY - 1))
  {
    var st := StartOfDayOf(offset, date);
    assert EndOfDayOf(offset, date) == DayEndFrom(st);
  }

  lemma StartOfLocalDay(offset: int, t: int, c: Civil)
    requires ValidCivil(c) && 100 <= c.year <= 9999
    requires -1000000 <= offset <= 1000000
    requires DaysFromCivil(c.year, c.month, c.day) * MS_PER_DAY <= t + offset * MS_PER_MINUTE
             < DaysFromCivil(c.year, c.month, c.day) * MS_PER_DAY + MS_PER_DAY
    ensures StartOfDayOf(offset, Some(t))
         == Ok(Some(DaysFromCivil(c.year, c.month, c.day) * MS_PER_DAY - offset * MS_PER_MINUTE))
  {
    LocalDateFields(offset, t, c);
    StartOfDateOnly(offset, LocalDateString(offset, Some(t)), c);
  }

  /** A `YYYY-MM-DD` text with a four-digit year of at least 100 reads
      as the local midnight of that calendar day. */
  lemma StartOfDateOnly(offset: int, s: string, c: Civil)
    requires IsDateOnly(s) && DateOnlyFields(s) == c
    requires ValidCivil(c) && 100 <= c.year <= 9999
    requires -1000000 <= offset <= 1000000
    ensures FromChileDateOnly(offset, s)
         == Ok(Some(DaysFromCivil(c.year, c.month, c.day) * MS_PER_DAY - offset * MS_PER_MINUTE))
  {
    FromDateFields(offset, s, c, c.year);
  }
}
