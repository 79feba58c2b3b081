/** The download of memberships about to expire
    (app/api/admin/reports/memberships/expiring/route.ts): memberships
    whose end date falls within the next `days` days are fetched in end
    date order, those with an active status are kept, and each becomes one
    CSV line that says how many days it has left. */
module ExpiringReport {
  import opened Wrappers
  import opened Text
  import opened JsNumber
  import opened Calendar
  import ChileTime
  import Csv
  import LexOrder

  // ---------------------------------------------------------------- the window

  const DEFAULT_DAYS: int := 14
  const MAX_DAYS: int := 90

  /** `parseDays`: an absent or empty parameter, text `parseInt` cannot
      read, or a count of zero or less gives the default; any other count
      is capped at 90. */
  function ParseDays(value: Option<string>, defaultValue: int): (d: int)
    ensures value.None? || value == Some("") ==> d == defaultValue
    ensures value.Some? && value.value != "" && (ParseInt(value.value).None? || ParseInt(value.value).value <= 0) ==>
              d == defaultValue
    ensures value.Some? && value.value != "" && ParseInt(value.value).Some? && ParseInt(value.value).value > 0 ==>
              d == (if ParseInt(value.value).value < MAX_DAYS then ParseInt(value.value).value else MAX_DAYS)
  {
    if value.None? || value.value == "" then defaultValue
    else
      var parsed := ParseInt(value.value);
      if parsed.None? || parsed.value <= 0 then defaultValue
      else if parsed.value < MAX_DAYS then parsed.value else MAX_DAYS
  }

  /** With the route's default the window is always one to ninety days. */
  lemma WindowBounded(value: Option<string>)
    ensures 1 <= ParseDays(value, DEFAULT_DAYS) <= MAX_DAYS
  {
  }

  /** A plain count is taken as it is, up to ninety: `days=30` is 30 and
      `days=365` is 90. */
  lemma DaysOfDigits(s: string)
    requires s != [] && AllDigits(s)
    ensures ParseDays(Some(s), DEFAULT_DAYS)
            == if DigitsValue(s) == 0 then DEFAULT_DAYS else if DigitsValue(s) < MAX_DAYS then DigitsValue(s) else MAX_DAYS
  {
    ParseIntDigits(s);
  }

  /** `formatDate`: the UTC date of an instant, the first ten characters
      of `toISOString`, which throws on an Invalid Date (None). */
  function FormatDate(t: int): (r: Option<string>)
    ensures r.None? <==> TimeClip(t).None?
    ensures r.Some? ==> |r.value| == 10 && r.value == ToIsoString(t).value[..10]
  {
    match ToIsoString(t)
    case None => None
    case Some(iso) => Some(ChileTime.Prefix(iso, 10))
  }

  // ---------------------------------------------------------------- statuses

  /** `normalizeStatus`: a null or empty status is "desconocido", any
      other is lower-cased. */
  function NormalizeStatus(value: Option<string>): (r: string)
    ensures r != ""
    ensures value.Some? && value.value != "" ==> r == ToLower(value.value)
    ensures value.None? || value == Some("") ==> r == "desconocido"
  {
    if value.None? || value.value == "" then "desconocido" else ToLower(value.value)
  }

  /** `ACTIVE_STATUSES`. */
  predicate IsActiveStatus(status: string) {
    status == "active" || status == "activo"
  }

  /** A status counts as active exactly when, lower-cased, it is one of
      the two active spellings; "Active" and "ACTIVO" count, a missing one
      does not. */
  lemma ActiveStatusMeaning(value: Option<string>)
    ensures IsActiveStatus(NormalizeStatus(value)) <==> value.Some? && IsActiveStatus(ToLower(value.value))
  {
  }

  // ---------------------------------------------------------------- rows

  datatype Athlete = Athlete(id: string, name: Option<string>, email: Option<string>, phone: Option<string>)

  /** One fetched membership. `endInstant` is the host's reading of
      `new Date(end_date)`, None when that is an Invalid Date. A date of
      None is null. */
  datatype ExpiringRow = ExpiringRow(
    startDate: Option<string>,
    endDate: Option<string>,
    plan: Option<string>,
    status: Option<string>,
    athlete: Option<Athlete>,
    endInstant: Option<int>)

  const HEADER: seq<string> := ["athlete_id", "athlete_nombre", "athlete_email", "athlete_telefono", "plan", "inicio",
                                "fin", "dias_para_vencer", "estado_original"]

  /** The rows the loop keeps: an end date and an active status. */
  predicate Qualifies(row: ExpiringRow) {
    row.endDate.Some? && row.endDate.value != "" && IsActiveStatus(NormalizeStatus(row.status))
  }

  /** `Math.ceil(x / d)` for a positive divisor. */
  function CeilDiv(x: int, d: int): (q: int)
    requires d > 0
    ensures (q - 1) * d < x <= q * d
  {
    -((-x) / d)
  }

  /** `dias_para_vencer`: whole days from now to the end, rounded up, as
      text; "NaN" for an end that is an Invalid Date. */
  function DaysLeft(endInstant: Option<int>, now: int): string {
    if endInstant.None? then "NaN" else IntToString(CeilDiv(endInstant.value - now, MS_PER_DAY))
  }

  /** One data line; a missing athlete, plan, date or status is empty. */
  function Line(row: ExpiringRow, now: int): (cells: seq<string>)
    ensures |cells| == |HEADER|
    ensures cells[4] == row.plan.GetOr("") && cells[5] == row.startDate.GetOr("")
    ensures cells[6] == row.endDate.GetOr("") && cells[8] == row.status.GetOr("")
    ensures row.athlete.None? ==> cells[0] == "" && cells[1] == "" && cells[2] == "" && cells[3] == ""
    ensures row.athlete.Some? ==> cells[0] == row.athlete.value.id && cells[1] == row.athlete.value.name.GetOr("")
  {
    var a := row.athlete;
    [if a.Some? then a.value.id else "",
     if a.Some? then a.value.name.GetOr("") else "",
     if a.Some? then a.value.email.GetOr("") else "",
     if a.Some? then a.value.phone.GetOr("") else "",
     row.plan.GetOr(""),
     row.startDate.GetOr(""),
     row.endDate.GetOr(""),
     DaysLeft(row.endInstant, now),
     row.status.GetOr("")]
  }

  /** The data lines of `data`, in order. */
  function Lines(data: seq<ExpiringRow>, now: int): (lines: seq<seq<string>>)
    ensures forall i :: 0 <= i < |lines| ==> |lines[i]| == |HEADER|
    decreases |data|
  {
    if data == [] then []
    else
      var last := data[|data| - 1];
      Lines(data[..|data| - 1], now) + (if Qualifies(last) then [Line(last, now)] else [])
  }

  /** The positions of the rows kept, in order. */
  function Kept(data: seq<ExpiringRow>): seq<nat>
    decreases |data|
  {
    if data == [] then []
    else Kept(data[..|data| - 1]) + (if Qualifies(data[|data| - 1]) then [|data| - 1] else [])
  }

  /** The kept positions are increasing, and a row is kept exactly when it
      qualifies. */
  lemma {:induction false} KeptMeaning(data: seq<ExpiringRow>)
    ensures forall i :: 0 <= i < |Kept(data)| ==> Kept(data)[i] < |data|
    ensures forall i, j :: 0 <= i < j < |Kept(data)| ==> Kept(data)[i] < Kept(data)[j]
    ensures forall p :: 0 <= p < |data| ==> (p in Kept(data) <==> Qualifies(data[p]))
    decreases |data|
  {
    if data != [] {
      var init := data[..|data| - 1];
      KeptMeaning(init);
      forall p | 0 <= p < |init|
        ensures data[p] == init[p]
      {
      }
    }
  }

  /** Line i is the line of the i-th kept row. */
  lemma {:induction false} LinesOfKept(data: seq<ExpiringRow>, now: int)
    ensures |Lines(data, now)| == |Kept(data)|
    ensures forall i :: 0 <= i < |Kept(data)| ==> Kept(data)[i] < |data| && Lines(data, now)[i] == Line(data[Kept(data)[i]], now)
    decreases |data|
  {
    if data != [] {
      var init := data[..|data| - 1];
      LinesOfKept(init, now);
      KeptMeaning(init);
      forall i | 0 <= i < |Kept(init)|
        ensures data[Kept(init)[i]] == init[Kept(init)[i]]
      {
      }
    }
  }

  predicate EndsAscending(data: seq<ExpiringRow>) {
    forall i, j :: 0 <= i < j < |data| ==> !LexOrder.LexLess(data[j].endDate.GetOr(""), data[i].endDate.GetOr(""))
  }

  /** Rows fetched in end date order give lines in end date order. */
  lemma LinesKeepOrder(data: seq<ExpiringRow>, now: int)
    requires EndsAscending(data)
    ensures var lines := Lines(data, now);
            forall i, j :: 0 <= i < j < |lines| ==> !LexOrder.LexLess(lines[j][6], lines[i][6])
  {
    LinesOfKept(data, now);
    KeptMeaning(data);
  }

  /** The loop of the route: the header, then one line per kept row. */
  method BuildRows(data: seq<ExpiringRow>, now: int) returns (rows: seq<seq<string>>)
    ensures rows == [HEADER] + Lines(data, now)
  {
    rows := [HEADER];
    var i := 0;
    while i < |data|
      invariant 0 <= i <= |data|
      invariant rows == [HEADER] + Lines(data[..i], now)
    {
      assert data[..i + 1][..i] == data[..i];
      var row := data[i];
      if row.endDate.None? || row.endDate.value == "" {
        i := i + 1;
        continue;
      }
      var status := NormalizeStatus(row.status);
      if !IsActiveStatus(status) {
        i := i + 1;
        continue;
      }
      rows := rows + [Line(row, now)];
      i := i + 1;
    }
    assert data[..i] == data;
  }

  // ---------------------------------------------------------------- the response

  /** The text cells as the CSV writer takes them. */
  function Table(rows: seq<seq<string>>): seq<seq<Option<string>>> {
    seq(|rows|, i requires 0 <= i < |rows| => seq(|rows[i]|, j requires 0 <= j < |rows[i]| => Some(rows[i][j])))
  }

  /** Reading the document back, after its byte-order mark, gives the
      header and every kept line. */
  lemma ReportReadsBack(data: seq<ExpiringRow>, now: int)
    ensures var body := Csv.ToCsv(Table([HEADER] + Lines(data, now)), None);
            |body| >= 1 && Csv.ReadRows(body[1..]) == Some([HEADER] + Lines(data, now))
  {
    var rows := [HEADER] + Lines(data, now);
    var table := Table(rows);
    assert forall i :: 0 <= i < |table| ==> |table[i]| == |rows[i]| == |HEADER|;
    Csv.ContentRoundTrip(table);
    forall i | 0 <= i < |rows|
      ensures Csv.Values(table[i]) == rows[i]
    {
    }
    assert seq(|table|, i requires 0 <= i < |table| => Csv.Values(table[i])) == rows;
  }

  /** The query sent: end date within the window, ascending end date. */
  datatype ExpiringQuery = ExpiringQuery(endFrom: string, endTo: string)

  /** The window asked for: from today's UTC date to the UTC date `days`
      days ahead; None when either is an Invalid Date, where the route
      throws. */
  function Window(daysParam: Option<string>, now: int): (w: Option<ExpiringQuery>)
    ensures w.Some? ==> Some(w.value.endFrom) == FormatDate(now)
    ensures w.Some? ==> Some(w.value.endTo) == FormatDate(now + ParseDays(daysParam, DEFAULT_DAYS) * MS_PER_DAY)
  {
    Between(FormatDate(now), FormatDate(now + ParseDays(daysParam, DEFAULT_DAYS) * MS_PER_DAY))
  }

  /** The query between two formatted dates, when both are defined. */
  function Between(startDate: Option<string>, endDate: Option<string>): (w: Option<ExpiringQuery>)
    ensures w.Some? <==> startDate.Some? && endDate.Some?
    ensures w.Some? ==> Some(w.value.endFrom) == startDate && Some(w.value.endTo) == endDate
  {
    if startDate.None? || endDate.None? then None else Some(ExpiringQuery(startDate.value, endDate.value))
  }

  /** The window is defined for every clock reading at least ninety days
      away from the end of the time range. */
  lemma WindowDefined(daysParam: Option<string>, now: int)
    requires -MAX_TIME <= now <= MAX_TIME - MAX_DAYS * MS_PER_DAY
    ensures Window(daysParam, now).Some?
  {
    WindowBounded(daysParam);
  }

  /** The answers: 503 without the service configuration, 500 with the
      query's message, an uncaught error (an Invalid Date in the window),
      or the CSV file. */
  datatype ExpiringResponse =
    | MissingServiceRole
    | QueryFailed(message: string)
    | Uncaught
    | CsvFile(fileName: string, body: string)

  /** `GET`. `configured` says whether the service-role configuration is
      present, `now` is the clock, `data` what the query returns and
      `queryFault` its error. The file is named after today's UTC date. */
  method Get(configured: bool, daysParam: Option<string>, now: int, data: seq<ExpiringRow>, queryFault: Option<string>)
    returns (resp: ExpiringResponse, query: Option<ExpiringQuery>)
    ensures !configured ==> resp == MissingServiceRole && query.None?
    ensures configured ==> query == Window(daysParam, now)
    ensures configured && query.None? ==> resp == Uncaught
    ensures configured && query.Some? && queryFault.Some? ==> resp == QueryFailed(queryFault.value)
    ensures configured && query.Some? && queryFault.None? ==>
              resp == CsvFile("reporte-membresias-por-vencer-" + query.value.endFrom + ".csv",
                              Csv.ToCsv(Table([HEADER] + Lines(data, now)), None))
  {
    query := None;
    if !configured {
      return MissingServiceRole, query;
    }
    query := Window(daysParam, now);
    if query.None? {
      return Uncaught, query;
    }
    if queryFault.Some? {
      return QueryFailed(queryFault.value), query;
    }
    var rows := BuildRows(data, now);
    var csv := Csv.ToCsv(Table(rows), None);
    resp := CsvFile("reporte-membresias-por-vencer-" + query.value.endFrom + ".csv", csv);
  }
}
