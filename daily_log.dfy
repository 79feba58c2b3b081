/** What the two file loggers (lib/logger.ts and lib/logging/cardLogger.ts)
    share: the zero-padded fields of a local timestamp, the per-day file
    name, and a log directory whose files only ever grow by whole lines.
    The host clock and time zone are outside the model: a timestamp is
    given as the local wall-clock time in milliseconds since 1970-01-01,
    so that its `getUTC*` readings are the host's local `get*` readings. */
module DailyLog {
  import opened Wrappers
  import opened Text
  import opened Calendar

  /** `value.toString().padStart(2, '0')`. */
  function Pad(value: nat): (r: string)
    ensures AllDigits(r) && |r| >= 2
    ensures DigitsValue(r) == value
    ensures value < 100 ==> |r| == 2
  {
    assert Pow10(2) == 100;
    if value < 100 then PadNatLength(value, 2); PadNat(value, 2) else PadNat(value, 2)
  }

  /** `formatDate`: the year as `String(year)`, month and day padded to
      two digits. */
  function DateOf(c: Civil): (r: string)
    requires ValidCivil(c)
    ensures 1000 <= c.year <= 9999 ==> |r| == 10
  {
    var yearText := IntToString(c.year);
    assert Pow10(4) == 10000;
    assert |Pad(c.month)| == 2 && |Pad(c.day)| == 2;
    if 1000 <= c.year <= 9999 then
      assert Pow10(3) == 1000;
      NatToStringLength(c.year, 4);
      NatToStringLengthAtLeast(c.year, 4);
      assert yearText == NatToString(c.year);
      yearText + "-" + Pad(c.month) + "-" + Pad(c.day)
    else yearText + "-" + Pad(c.month) + "-" + Pad(c.day)
  }

  /** `formatTime`: hours, minutes and seconds padded to two digits. */
  function TimeOf(p: UtcParts): (r: string)
    requires 0 <= p.hours < 24 && 0 <= p.minutes < 60 && 0 <= p.seconds < 60
    ensures |r| == 8
  {
    Pad(p.hours) + ":" + Pad(p.minutes) + ":" + Pad(p.seconds)
  }

  /** The date of a local timestamp. */
  function LocalDate(wall: int): string {
    DateOf(UtcPartsOf(wall).date)
  }

  /** The time of day of a local timestamp. */
  function LocalTime(wall: int): string {
    TimeOf(UtcPartsOf(wall))
  }

  /** The log file of a local timestamp. */
  function FileName(wall: int): string {
    LocalDate(wall) + ".log"
  }

  /** Where the fields of a four-digit-year date sit in its text. */
  lemma DateFields(c: Civil)
    requires ValidCivil(c) && 1000 <= c.year <= 9999
    ensures |DateOf(c)| == 10
    ensures DateOf(c)[..4] == NatToString(c.year)
    ensures DateOf(c)[5..7] == Pad(c.month) && DateOf(c)[8..10] == Pad(c.day)
  {
    assert Pow10(4) == 10000 && Pow10(3) == 1000;
    NatToStringLength(c.year, 4);
    NatToStringLengthAtLeast(c.year, 4);
  }

  /** Four-digit-year dates are written differently exactly when they are
      different dates. */
  lemma DateOfInjective(c1: Civil, c2: Civil)
    requires ValidCivil(c1) && ValidCivil(c2)
    requires 1000 <= c1.year <= 9999 && 1000 <= c2.year <= 9999
    requires DateOf(c1) == DateOf(c2)
    ensures c1 == c2
  {
    DateFields(c1);
    DateFields(c2);
    NatToStringValue(c1.year);
    NatToStringValue(c2.year);
    assert Pad(c1.month) == Pad(c2.month);
    assert Pad(c1.day) == Pad(c2.day);
  }

  /** Two timestamps of four-digit years share a file exactly when they
      fall on the same local day. */
  lemma SameFileIffSameDay(w1: int, w2: int)
    requires 1000 <= UtcPartsOf(w1).date.year <= 9999
    requires 1000 <= UtcPartsOf(w2).date.year <= 9999
    ensures FileName(w1) == FileName(w2) <==> w1 / MS_PER_DAY == w2 / MS_PER_DAY
  {
    var c1 := UtcPartsOf(w1).date;
    var c2 := UtcPartsOf(w2).date;
    assert c1 == CivilFromDays(w1 / MS_PER_DAY);
    assert c2 == CivilFromDays(w2 / MS_PER_DAY);
    if FileName(w1) == FileName(w2) {
      assert LocalDate(w1) == FileName(w1)[..|FileName(w1)| - 4];
      assert LocalDate(w2) == FileName(w2)[..|FileName(w2)| - 4];
      DateOfInjective(c1, c2);
    }
  }

  // ---------------------------------------------------------------- the directory

  /** The entries of a file, none when the file does not exist yet. */
  function Lines(files: map<string, seq<string>>, name: string): seq<string> {
    if name in files then files[name] else []
  }

  /** The text of a file: each entry followed by a newline. */
  function FileText(lines: seq<string>): (r: string)
    ensures lines == [] ==> r == ""
    ensures lines != [] ==> r != "" && r[|r| - 1] == '\n'
  {
    if lines == [] then "" else FileText(lines[..|lines| - 1]) + lines[|lines| - 1] + "\n"
  }

  /** A file holds its entries joined by newlines, with a final newline. */
  lemma {:induction false} FileTextJoin(lines: seq<string>)
    requires lines != []
    ensures FileText(lines) == Join(lines, '\n') + "\n"
  {
    if |lines| >= 2 {
      FileTextJoin(lines[..|lines| - 1]);
      JoinSnoc(lines, '\n');
    }
  }

  /** The directory after `appendFile(name, line + '\n')`: the file is
      created if missing, keeps its earlier entries and gains one; every
      other file is untouched. */
  function Appended(files: map<string, seq<string>>, name: string, line: string): (r: map<string, seq<string>>)
    ensures r.Keys == files.Keys + {name}
    ensures Lines(r, name) == Lines(files, name) + [line]
    ensures forall other :: other != name ==> Lines(r, other) == Lines(files, other)
  {
    files[name := Lines(files, name) + [line]]
  }

  /** Appending an entry appends its text, newline included, to the file:
      earlier content is kept as a prefix. */
  lemma AppendedText(files: map<string, seq<string>>, name: string, line: string)
    ensures FileText(Lines(Appended(files, name, line), name)) == FileText(Lines(files, name)) + line + "\n"
  {
    var before := Lines(files, name);
    assert (before + [line])[..|before|] == before;
  }

  /** Two appends to the same file land in order, after what was there. */
  lemma {:induction false} TwoAppends(files: map<string, seq<string>>, name: string, first: string, second: string)
    ensures var after := Appended(Appended(files, name, first), name, second);
            FileText(Lines(after, name)) == FileText(Lines(files, name)) + first + "\n" + second + "\n"
  {
    AppendedText(files, name, first);
    AppendedText(Appended(files, name, first), name, second);
  }

  /** A directory of daily log files. */
  class LogDirectory {
    var files: map<string, seq<string>>

    constructor()
      ensures files == map[]
    {
      files := map[];
    }

    /** `fs.appendFile(<dir>/name, line + '\n')`. */
    method Append(name: string, line: string)
      modifies this
      ensures files == Appended(old(files), name, line)
    {
      files := files[name := Lines(files, name) + [line]];
    }
  }
}
