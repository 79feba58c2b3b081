/** The memberships movement download
    (app/api/admin/reports/memberships/route.ts): the fetched memberships
    are grouped by athlete, each athlete's memberships are classified in
    order against the one before (new, renewal, change of plan), the rows
    are sorted newest first by creation time and sent as CSV. */
module MembershipsReport {
  import opened Wrappers
  import opened Text
  import opened JsNumber
  import opened Calendar
  import opened ChileTime
  import Csv
  import SummaryReport

  // ---------------------------------------------------------------- the limit

  const DEFAULT_LIMIT: int := 10000
  const MAX_LIMIT: int := 50000

  /** `Number(limit)`: an absent parameter is `Number(null)`, which is 0. */
  function LimitNumber(param: Option<string>): Option<int> {
    if param.None? then Some(0) else ToNumber(param.value)
  }

  /** `Math.min(Number(limit) || 10000, 50000)`: 0 and NaN are falsy and
      give the default; any other number is capped at the maximum. */
  function Limit(param: Option<string>): (n: int)
    ensures n <= MAX_LIMIT
    ensures LimitNumber(param).None? || LimitNumber(param) == Some(0) ==> n == DEFAULT_LIMIT
    ensures LimitNumber(param).Some? && LimitNumber(param).value != 0 ==>
              n == (if LimitNumber(param).value < MAX_LIMIT then LimitNumber(param).value else MAX_LIMIT)
  {
    var v := LimitNumber(param);
    var wanted := if v.None? || v.value == 0 then DEFAULT_LIMIT else v.value;
    if wanted < MAX_LIMIT then wanted else MAX_LIMIT
  }

  /** A positive count in plain digits is taken up to the maximum; absent
      or zero means the default. */
  lemma LimitOfDigits(s: string)
    requires s != [] && AllDigits(s)
    ensures Limit(Some(s)) == if DigitsValue(s) == 0 then DEFAULT_LIMIT
                              else if DigitsValue(s) < MAX_LIMIT then DigitsValue(s) else MAX_LIMIT
    ensures Limit(None) == DEFAULT_LIMIT
  {
    TrimNoop(s);
  }

  // ---------------------------------------------------------------- rows

  /** A creation time: its text as the route renders it for the table,
      and the instant that text is read back as for the sort. */
  datatype Created = Created(text: string, millis: int)

  /** One fetched membership with its athlete's name. A date or creation
      time of None is null or empty (falsy). */
  datatype Membership = Membership(
    athleteId: string,
    plan: string,
    startDate: Option<DateInput>,
    endDate: Option<DateInput>,
    status: Option<string>,
    createdAt: Option<Created>,
    athleteName: Option<string>)

  /** `tipo_movimiento`; `Otro` is the initial value of the variable. */
  datatype Movement = Nueva | Renovacion | CambioDePlan | Otro

  /** One line of the report. `activa` is `estado_actual`. */
  datatype ReportRow = ReportRow(
    socio: string,
    planNuevo: string,
    planAnterior: Option<string>,
    startDate: string,
    endDate: string,
    statusRegistro: string,
    tipo: Movement,
    activa: bool,
    createdAt: Option<Created>)

  function MovementText(t: Movement): string {
    match t
    case Nueva => "Nueva"
    case Renovacion => "Renovación"
    case CambioDePlan => "Cambio de plan"
    case Otro => "Otro"
  }

  function EstadoText(activa: bool): string {
    if activa then "Activa" else "Suspensión/No activa"
  }

  /** How the route reads a date: the instant of local midnight of its
      day (`startOfChileDay`, which may throw) and its local date text
      (`toChileDateString`). */
  datatype LocalCalendar = LocalCalendar(
    dayStart: DateInput -> Result<Option<int>, string>,
    dateText: DateInput -> string)

  /** The Chile-time helpers under a fixed offset. */
  function ChileCalendar(offset: int): LocalCalendar {
    LocalCalendar(d => StartOfChileDay(offset, d), d => ToChileDateString(offset, d))
  }

  /** The movement of `m` after `prev`: the first membership of an athlete
      is new; the same plan starting exactly one local day after the
      previous one's end is a renewal; everything else is a change of plan.
      Reading a day start may throw. */
  function MovementOf(cal: LocalCalendar, prev: Option<Membership>, m: Membership): (r: Result<Movement, string>)
    ensures r.Ok? ==> r.value != Otro
    ensures r == Ok(Nueva) <==> prev.None?
    ensures r.Err? ==> prev.Some? && m.plan == prev.value.plan && prev.value.endDate.Some? && m.startDate.Some?
    ensures prev.Some? && (m.plan != prev.value.plan || prev.value.endDate.None? || m.startDate.None?) ==>
              r == Ok(CambioDePlan)
  {
    if prev.None? then Ok(Nueva)
    else if m.plan != prev.value.plan then Ok(CambioDePlan)
    else if prev.value.endDate.None? || m.startDate.None? then Ok(CambioDePlan)
    else
      match cal.dayStart(prev.value.endDate.value)
      case Err(e) => Err(e)
      case Ok(prevEnd) =>
        match cal.dayStart(m.startDate.value)
        case Err(e) => Err(e)
        case Ok(mStart) =>
          // an Invalid Date's time is NaN, equal to nothing
          if prevEnd.Some? && mStart.Some? && mStart.value == prevEnd.value + MS_PER_DAY then Ok(Renovacion)
          else Ok(CambioDePlan)
  }

  /** A renewal is exactly the same plan, both dates present, and the new
      start one day after the previous end, both read as local midnights. */
  lemma RenewalMeaning(cal: LocalCalendar, prev: Membership, m: Membership)
    ensures MovementOf(cal, Some(prev), m) == Ok(Renovacion)
            <==> && m.plan == prev.plan && prev.endDate.Some? && m.startDate.Some?
                 && cal.dayStart(prev.endDate.value).Ok?
                 && cal.dayStart(prev.endDate.value).value.Some?
                 && cal.dayStart(m.startDate.value) == Ok(Some(cal.dayStart(prev.endDate.value).value.value + MS_PER_DAY))
  {
  }

  /** A date cell: the local date of a present date, empty otherwise. */
  function DateText(cal: LocalCalendar, d: Option<DateInput>): string {
    if d.Some? then cal.dateText(d.value) else ""
  }

  /** The row of `m` after `prev`, or the error classifying it throws. */
  function RowFor(cal: LocalCalendar, prev: Option<Membership>, m: Membership): (r: Result<ReportRow, string>)
    ensures r.Ok? <==> MovementOf(cal, prev, m).Ok?
    ensures r.Err? ==> r.error == MovementOf(cal, prev, m).error
    ensures r.Ok? ==> && r.value.tipo == MovementOf(cal, prev, m).value
                      && r.value.planNuevo == m.plan
                      && r.value.planAnterior == (if prev.Some? then Some(prev.value.plan) else None)
                      && r.value.statusRegistro == m.status.GetOr("active")
                      && (r.value.activa <==> m.status.GetOr("active") == "active")
                      && r.value.createdAt == m.createdAt
  {
    match MovementOf(cal, prev, m)
    case Err(e) => Err(e)
    case Ok(tipo) =>
      var status := m.status.GetOr("active");
      Ok(ReportRow(m.athleteName.GetOr("[sin nombre]"), m.plan, if prev.Some? then Some(prev.value.plan) else None,
                   DateText(cal, m.startDate), DateText(cal, m.endDate), status, tipo,
                   status == "active", m.createdAt))
  }

  /** The membership before the `i`-th of an athlete's list, if any. */
  function Previous(list: seq<Membership>, i: nat): Option<Membership>
    requires i <= |list|
  {
    if i == 0 then None else Some(list[i - 1])
  }

  /** Each membership of an athlete's list classified against the one
      before it. */
  function RowsOf(cal: LocalCalendar, list: seq<Membership>): (r: seq<Result<ReportRow, string>>)
    ensures |r| == |list|
  {
    seq(|list|, i requires 0 <= i < |list| => RowFor(cal, Previous(list, i), list[i]))
  }

  /** The rows, in order, or the first error: what a loop that stops at
      the first thrown error collects. */
  function Collect(results: seq<Result<ReportRow, string>>): Result<seq<ReportRow>, string>
    decreases |results|
  {
    if results == [] then Ok([])
    else
      match Collect(results[..|results| - 1])
      case Err(e) => Err(e)
      case Ok(rows) =>
        match results[|results| - 1]
        case Err(e) => Err(e)
        case Ok(row) => Ok(rows + [row])
  }

  /** The rows of one athlete's list, or the first error thrown. */
  function Classified(cal: LocalCalendar, list: seq<Membership>): Result<seq<ReportRow>, string> {
    Collect(RowsOf(cal, list))
  }

  lemma CollectStep(results: seq<Result<ReportRow, string>>, i: nat, rows: seq<ReportRow>)
    requires i < |results|
    requires Collect(results[..i]) == Ok(rows)
    ensures Collect(results[..i + 1]) == match results[i]
                                         case Err(e) => Err(e)
                                         case Ok(row) => Ok(rows + [row])
  {
    var s := results[..i + 1];
    assert s[..|s| - 1] == results[..i];
  }

  /** Once a prefix has thrown, the whole list throws the same error. */
  lemma {:induction false} CollectErrorSticks(results: seq<Result<ReportRow, string>>, i: nat)
    requires i <= |results|
    requires Collect(results[..i]).Err?
    ensures Collect(results) == Collect(results[..i])
    decreases |results| - i
  {
    if i < |results| {
      var s := results[..i + 1];
      assert s[..|s| - 1] == results[..i];
      CollectErrorSticks(results, i + 1);
    } else {
      assert results[..i] == results;
    }
  }

  /** Collecting succeeds when every result is a row, and then gives the
      rows in order; otherwise it gives the first error. */
  lemma {:induction false} CollectMeaning(results: seq<Result<ReportRow, string>>)
    ensures Collect(results).Ok? <==> forall i :: 0 <= i < |results| ==> results[i].Ok?
    ensures Collect(results).Ok? ==>
              && |Collect(results).value| == |results|
              && forall i :: 0 <= i < |results| ==> results[i] == Ok(Collect(results).value[i])
    ensures Collect(results).Err? ==>
              exists i :: && 0 <= i < |results| && results[i] == Err(Collect(results).error)
                          && forall j :: 0 <= j < i ==> results[j].Ok?
    decreases |results|
  {
    if results != [] {
      var init := results[..|results| - 1];
      CollectMeaning(init);
      assert forall i :: 0 <= i < |init| ==> init[i] == results[i];
      if Collect(results).Ok? {
        var rows := Collect(results).value;
        var initRows := Collect(init).value;
        forall i | 0 <= i < |results| ensures results[i] == Ok(rows[i]) {
          if i < |init| {
            assert rows[i] == initRows[i];
          }
        }
      } else if Collect(init).Ok? {
        assert results[|init|] == Err(Collect(results).error);
      } else {
        var i :| && 0 <= i < |init| && init[i] == Err(Collect(init).error)
                 && forall j :: 0 <= j < i ==> init[j].Ok?;
        assert results[i] == init[i];
      }
    }
  }

  /** Classifying a list gives one row per membership, in order, each
      the membership's row after its predecessor. */
  lemma ClassifiedRows(cal: LocalCalendar, list: seq<Membership>)
    requires Classified(cal, list).Ok?
    ensures |Classified(cal, list).value| == |list|
    ensures forall i :: 0 <= i < |list| ==> RowFor(cal, Previous(list, i), list[i]) == Ok(Classified(cal, list).value[i])
  {
    var results := RowsOf(cal, list);
    CollectMeaning(results);
    var rows := Classified(cal, list).value;
    forall i | 0 <= i < |rows|
      ensures RowFor(cal, Previous(list, i), list[i]) == Ok(rows[i])
    {
      assert results[i] == Ok(rows[i]);
    }
  }

  /** The first row of an athlete is new and has no previous plan; every
      later row names the plan before it and is a renewal or a change. */
  lemma ClassifiedMovements(cal: LocalCalendar, list: seq<Membership>)
    requires Classified(cal, list).Ok?
    ensures var rows := Classified(cal, list).value;
            && |rows| == |list|
            && (|rows| > 0 ==> rows[0].tipo == Nueva && rows[0].planAnterior.None?)
            && forall i :: 0 < i < |rows| ==>
                 rows[i].planAnterior == Some(list[i - 1].plan) && rows[i].tipo in {Renovacion, CambioDePlan}
  {
    ClassifiedRows(cal, list);
  }

  /** Each row carries its membership's plan, status and creation time, and
      is active exactly when the status, missing read as "active", is
      "active". */
  lemma ClassifiedFields(cal: LocalCalendar, list: seq<Membership>)
    requires Classified(cal, list).Ok?
    ensures var rows := Classified(cal, list).value;
            forall i :: 0 <= i < |rows| && i < |list| ==>
              && rows[i].planNuevo == list[i].plan
              && rows[i].statusRegistro == list[i].status.GetOr("active")
              && (rows[i].activa <==> list[i].status.GetOr("active") == "active")
              && rows[i].createdAt == list[i].createdAt
  {
    ClassifiedRows(cal, list);
  }

  /** Classifying fails exactly when some membership's day starts cannot
      be read, with the first such error. */
  lemma ClassifiedFails(cal: LocalCalendar, list: seq<Membership>)
    requires Classified(cal, list).Err?
    ensures exists i :: && 0 < i < |list|
                        && RowFor(cal, Previous(list, i), list[i]) == Err(Classified(cal, list).error)
                        && list[i].plan == list[i - 1].plan
                        && list[i - 1].endDate.Some? && list[i].startDate.Some?
  {
    CollectMeaning(RowsOf(cal, list));
    var results := RowsOf(cal, list);
    var i :| && 0 <= i < |results| && results[i] == Err(Collect(results).error)
             && forall j :: 0 <= j < i ==> results[j].Ok?;
    assert RowFor(cal, Previous(list, i), list[i]).Err?;
  }

  /** The body of the inner loop: the movement of `m` after `prev` and its
      row. */
  method BuildRow(cal: LocalCalendar, prev: Option<Membership>, m: Membership) returns (r: Result<ReportRow, string>)
    ensures r == RowFor(cal, prev, m)
  {
    var tipo := Otro;
    if prev.None? {
      tipo := Nueva;
    } else if m.plan == prev.value.plan {
      if prev.value.endDate.None? || m.startDate.None? {
        tipo := CambioDePlan;
      } else {
        var prevEnd := cal.dayStart(prev.value.endDate.value);
        if prevEnd.Err? {
          return Err(prevEnd.error);
        }
        var mStart := cal.dayStart(m.startDate.value);
        if mStart.Err? {
          return Err(mStart.error);
        }
        if prevEnd.value.Some? && mStart.value.Some? && mStart.value.value == prevEnd.value.value + MS_PER_DAY {
          tipo := Renovacion;
        } else {
          tipo := CambioDePlan;
        }
      }
    } else {
      tipo := CambioDePlan;
    }
    var status := m.status.GetOr("active");
    var planAnterior := if prev.Some? then Some(prev.value.plan) else None;
    r := Ok(ReportRow(m.athleteName.GetOr("[sin nombre]"), m.plan, planAnterior,
                      DateText(cal, m.startDate), DateText(cal, m.endDate), status, tipo,
                      status == "active", m.createdAt));
  }

  /** The inner loop over one athlete's memberships, `prev` following
      along. */
  method ClassifyAthlete(cal: LocalCalendar, list: seq<Membership>) returns (r: Result<seq<ReportRow>, string>)
    ensures r == Classified(cal, list)
  {
    ghost var results := RowsOf(cal, list);
    var rows: seq<ReportRow> := [];
    var prev: Option<Membership> := None;
    var i := 0;
    assert results[..0] == [];
    while i < |list|
      invariant 0 <= i <= |list|
      invariant Collect(results[..i]) == Ok(rows)
      invariant prev == Previous(list, i)
    {
      var row := BuildRow(cal, prev, list[i]);
      CollectStep(results, i, rows);
      if row.Err? {
        CollectErrorSticks(results, i + 1);
        return Err(row.error);
      }
      rows := rows + [row.value];
      prev := Some(list[i]);
      i := i + 1;
    }
    assert results[..i] == results;
    return Ok(rows);
  }

  // ---------------------------------------------------------------- grouping

  /** Athlete ids in order of first appearance: the key order of the
      `byAthlete` record. */
  function AthleteOrder(data: seq<Membership>): (keys: seq<string>)
    decreases |data|
  {
    if data == [] then []
    else
      var keys := AthleteOrder(data[..|data| - 1]);
      var k := data[|data| - 1].athleteId;
      if k in keys then keys else keys + [k]
  }

  /** One athlete's memberships, in fetched order. */
  function OfAthlete(data: seq<Membership>, k: string): seq<Membership>
    decreases |data|
  {
    if data == [] then []
    else OfAthlete(data[..|data| - 1], k) + (if data[|data| - 1].athleteId == k then [data[|data| - 1]] else [])
  }

  lemma GroupStep(done: seq<Membership>, m: Membership)
    ensures var keys := AthleteOrder(done);
            AthleteOrder(done + [m]) == if m.athleteId in keys then keys else keys + [m.athleteId]
    ensures forall k :: OfAthlete(done + [m], k) == OfAthlete(done, k) + (if m.athleteId == k then [m] else [])
  {
    var s := done + [m];
    assert s[..|s| - 1] == done;
  }

  /** An athlete not yet listed has no memberships so far. */
  lemma {:induction false} UnlistedHasNone(data: seq<Membership>, k: string)
    requires k !in AthleteOrder(data)
    ensures OfAthlete(data, k) == []
    decreases |data|
  {
    if data != [] {
      UnlistedHasNone(data[..|data| - 1], k);
    }
  }

  /** Every athlete is listed once. */
  lemma {:induction false} AthleteOrderDistinct(data: seq<Membership>)
    ensures SummaryReport.Distinct(AthleteOrder(data))
    decreases |data|
  {
    if data != [] {
      AthleteOrderDistinct(data[..|data| - 1]);
    }
  }

  /** The listed athletes are exactly those with a membership. */
  lemma {:induction false} AthleteOrderListsOwners(data: seq<Membership>, k: string)
    ensures k in AthleteOrder(data) <==> exists i :: 0 <= i < |data| && data[i].athleteId == k
    decreases |data|
  {
    if data != [] {
      var init := data[..|data| - 1];
      AthleteOrderListsOwners(init, k);
      if exists i :: 0 <= i < |data| && data[i].athleteId == k {
        var i :| 0 <= i < |data| && data[i].athleteId == k;
        if i < |init| {
          assert init[i].athleteId == k;
        }
      }
      if exists i :: 0 <= i < |init| && init[i].athleteId == k {
        var i :| 0 <= i < |init| && init[i].athleteId == k;
        assert data[i].athleteId == k;
      }
    }
  }

  /** The grouping of the memberships `done`: the keys in order and each
      athlete's list. */
  ghost predicate GroupedAs(done: seq<Membership>, keys: seq<string>, byAthlete: map<string, seq<Membership>>) {
    && keys == AthleteOrder(done)
    && (forall k :: k in byAthlete <==> k in keys)
    && (forall k :: k in byAthlete ==> byAthlete[k] == OfAthlete(done, k))
  }

  /** One step of the first loop: `m` pushed onto its athlete's list, the
      list created on first sight. */
  method Push(keys: seq<string>, byAthlete: map<string, seq<Membership>>, ghost done: seq<Membership>, m: Membership)
    returns (keys': seq<string>, byAthlete': map<string, seq<Membership>>)
    requires GroupedAs(done, keys, byAthlete)
    ensures GroupedAs(done + [m], keys', byAthlete')
  {
    GroupStep(done, m);
    var k := m.athleteId;
    keys', byAthlete' := keys, byAthlete;
    if k !in byAthlete' {
      UnlistedHasNone(done, k);
      byAthlete' := byAthlete'[k := []];
      keys' := keys' + [k];
    }
    byAthlete' := byAthlete'[k := byAthlete'[k] + [m]];
  }

  /** The first loop of the route. `keys` is the order `Object.keys` gives
      back. */
  method GroupByAthlete(data: seq<Membership>) returns (keys: seq<string>, byAthlete: map<string, seq<Membership>>)
    ensures keys == AthleteOrder(data)
    ensures forall k :: k in byAthlete <==> k in keys
    ensures forall k :: k in byAthlete ==> byAthlete[k] == OfAthlete(data, k)
  {
    keys := [];
    byAthlete := map[];
    var i := 0;
    while i < |data|
      invariant 0 <= i <= |data|
      invariant GroupedAs(data[..i], keys, byAthlete)
    {
      keys, byAthlete := Push(keys, byAthlete, data[..i], data[i]);
      assert data[..i] + [data[i]] == data[..i + 1];
      i := i + 1;
    }
    assert data[..i] == data;
  }

  // ---------------------------------------------------------------- all rows

  /** The rows of the athletes `keys`, in that order, or the first error. */
  function Concat(cal: LocalCalendar, data: seq<Membership>, keys: seq<string>): Result<seq<ReportRow>, string>
    decreases |keys|
  {
    if keys == [] then Ok([])
    else
      match Concat(cal, data, keys[..|keys| - 1])
      case Err(e) => Err(e)
      case Ok(rows) =>
        match Classified(cal, OfAthlete(data, keys[|keys| - 1]))
        case Err(e) => Err(e)
        case Ok(more) => Ok(rows + more)
  }

  /** The report's rows before sorting: athlete by athlete in order of
      first appearance. */
  function Movements(cal: LocalCalendar, data: seq<Membership>): Result<seq<ReportRow>, string> {
    Concat(cal, data, AthleteOrder(data))
  }

  lemma ConcatStep(cal: LocalCalendar, data: seq<Membership>, keys: seq<string>, j: nat, rows: seq<ReportRow>)
    requires j < |keys|
    requires Concat(cal, data, keys[..j]) == Ok(rows)
    ensures Concat(cal, data, keys[..j + 1]) == match Classified(cal, OfAthlete(data, keys[j]))
                                                case Err(e) => Err(e)
                                                case Ok(more) => Ok(rows + more)
  {
    var s := keys[..j + 1];
    assert s[..|s| - 1] == keys[..j];
  }

  lemma {:induction false} ConcatErrorSticks(cal: LocalCalendar, data: seq<Membership>, keys: seq<string>, j: nat)
    requires j <= |keys|
    requires Concat(cal, data, keys[..j]).Err?
    ensures Concat(cal, data, keys) == Concat(cal, data, keys[..j])
    decreases |keys| - j
  {
    if j < |keys| {
      var s := keys[..j + 1];
      assert s[..|s| - 1] == keys[..j];
      ConcatErrorSticks(cal, data, keys, j + 1);
    } else {
      assert keys[..j] == keys;
    }
  }

  /** The two loops of the route: group, then classify athlete by
      athlete. */
  method ClassifyAll(cal: LocalCalendar, data: seq<Membership>) returns (r: Result<seq<ReportRow>, string>)
    ensures r == Movements(cal, data)
  {
    var keys, byAthlete := GroupByAthlete(data);
    var rows: seq<ReportRow> := [];
    var j := 0;
    assert keys[..0] == [];
    while j < |keys|
      invariant 0 <= j <= |keys|
      invariant Concat(cal, data, keys[..j]) == Ok(rows)
    {
      var list := byAthlete[keys[j]];
      var classified := ClassifyAthlete(cal, list);
      ConcatStep(cal, data, keys, j, rows);
      if classified.Err? {
        ConcatErrorSticks(cal, data, keys, j + 1);
        return Err(classified.error);
      }
      rows := rows + classified.value;
      j := j + 1;
    }
    assert keys[..j] == keys;
    return Ok(rows);
  }

  // ---------------------------------------------------------------- one row per membership

  /** The sizes of the groups of `keys`, added up. */
  function GroupSizes(data: seq<Membership>, keys: seq<string>): nat
    decreases |keys|
  {
    if keys == [] then 0 else GroupSizes(data, keys[..|keys| - 1]) + |OfAthlete(data, keys[|keys| - 1])|
  }

  lemma {:induction false} ConcatSize(cal: LocalCalendar, data: seq<Membership>, keys: seq<string>)
    requires Concat(cal, data, keys).Ok?
    ensures |Concat(cal, data, keys).value| == GroupSizes(data, keys)
    decreases |keys|
  {
    if keys != [] {
      ConcatSize(cal, data, keys[..|keys| - 1]);
      ClassifiedRows(cal, OfAthlete(data, keys[|keys| - 1]));
    }
  }

  lemma {:induction false} GroupSizesSnoc(data: seq<Membership>, x: Membership, keys: seq<string>)
    ensures GroupSizes(data + [x], keys) == GroupSizes(data, keys) + SummaryReport.Occurrences(keys, x.athleteId)
    decreases |keys|
  {
    assert (data + [x])[..|data|] == data;
    if keys != [] {
      GroupSizesSnoc(data, x, keys[..|keys| - 1]);
    }
  }

  /** The groups together hold every membership once. */
  lemma {:induction false} GroupsCoverAll(data: seq<Membership>)
    ensures GroupSizes(data, AthleteOrder(data)) == |data|
    decreases |data|
  {
    if data != [] {
      var init := data[..|data| - 1];
      var x := data[|data| - 1];
      var keys := AthleteOrder(init);
      GroupsCoverAll(init);
      assert init + [x] == data;
      GroupSizesSnoc(init, x, keys);
      AthleteOrderDistinct(init);
      SummaryReport.OccursOnce(keys, x.athleteId);
      if x.athleteId !in keys {
        UnlistedHasNone(init, x.athleteId);
        GroupSizesSnoc(init, x, keys + [x.athleteId]);
        assert (keys + [x.athleteId])[..|keys|] == keys;
      }
    }
  }

  /** Every fetched membership yields exactly one row. */
  lemma OneRowPerMembership(cal: LocalCalendar, data: seq<Membership>)
    requires Movements(cal, data).Ok?
    ensures |Movements(cal, data).value| == |data|
  {
    ConcatSize(cal, data, AthleteOrder(data));
    GroupsCoverAll(data);
  }

  // ---------------------------------------------------------------- newest first

  /** The sort key: the creation instant, 0 for a row without one. */
  function SortKey(r: ReportRow): int {
    if r.createdAt.Some? then r.createdAt.value.millis else 0
  }

  predicate NewestFirst(rows: seq<ReportRow>) {
    forall i, j :: 0 <= i < j < |rows| ==> SortKey(rows[i]) >= SortKey(rows[j])
  }

  /** The rows of key `k`, in order. */
  function WithKey(rows: seq<ReportRow>, k: int): seq<ReportRow> {
    if rows == [] then [] else (if SortKey(rows[0]) == k then [rows[0]] else []) + WithKey(rows[1..], k)
  }

  /** `r` placed after every row whose key is at least its own. */
  function InsertByKey(sorted: seq<ReportRow>, r: ReportRow): seq<ReportRow> {
    if sorted == [] then [r]
    else if SortKey(sorted[0]) >= SortKey(r) then [sorted[0]] + InsertByKey(sorted[1..], r)
    else [r] + sorted
  }

  /** `rows.sort((a, b) => bx - ax)`: a stable sort, greatest key first. */
  function SortNewestFirst(rows: seq<ReportRow>): seq<ReportRow>
    decreases |rows|
  {
    if rows == [] then [] else InsertByKey(SortNewestFirst(rows[..|rows| - 1]), rows[|rows| - 1])
  }

  lemma {:induction false} WithKeyAppend(a: seq<ReportRow>, b: seq<ReportRow>, k: int)
    ensures WithKey(a + b, k) == WithKey(a, k) + WithKey(b, k)
    decreases |a|
  {
    if a == [] {
      assert a + b == b;
    } else {
      assert (a + b)[1..] == a[1..] + b;
      WithKeyAppend(a[1..], b, k);
    }
  }

  lemma {:induction false} WithKeyNone(rows: seq<ReportRow>, k: int)
    requires forall i :: 0 <= i < |rows| ==> SortKey(rows[i]) < k
    ensures WithKey(rows, k) == []
    decreases |rows|
  {
    if rows != [] {
      WithKeyNone(rows[1..], k);
    }
  }

  lemma {:induction false} InsertByKeyKeeps(sorted: seq<ReportRow>, r: ReportRow)
    ensures multiset(InsertByKey(sorted, r)) == multiset(sorted) + multiset{r}
    decreases |sorted|
  {
    if sorted != [] && SortKey(sorted[0]) >= SortKey(r) {
      InsertByKeyKeeps(sorted[1..], r);
      assert sorted == [sorted[0]] + sorted[1..];
    }
  }

  lemma {:induction false} InsertByKeyBounded(sorted: seq<ReportRow>, r: ReportRow, bound: int)
    requires forall i :: 0 <= i < |sorted| ==> SortKey(sorted[i]) <= bound
    requires SortKey(r) <= bound
    ensures forall i :: 0 <= i < |InsertByKey(sorted, r)| ==> SortKey(InsertByKey(sorted, r)[i]) <= bound
    decreases |sorted|
  {
    if sorted != [] && SortKey(sorted[0]) >= SortKey(r) {
      InsertByKeyBounded(sorted[1..], r, bound);
    }
  }

  lemma {:induction false} InsertByKeySorted(sorted: seq<ReportRow>, r: ReportRow)
    requires NewestFirst(sorted)
    ensures NewestFirst(InsertByKey(sorted, r))
    decreases |sorted|
  {
    if sorted != [] && SortKey(sorted[0]) >= SortKey(r) {
      InsertByKeySorted(sorted[1..], r);
      InsertByKeyBounded(sorted[1..], r, SortKey(sorted[0]));
    }
  }

  lemma {:induction false} InsertByKeyStable(sorted: seq<ReportRow>, r: ReportRow, k: int)
    requires NewestFirst(sorted)
    ensures WithKey(InsertByKey(sorted, r), k) == WithKey(sorted, k) + WithKey([r], k)
    decreases |sorted|
  {
    if sorted == [] {
    } else if SortKey(sorted[0]) >= SortKey(r) {
      InsertByKeyStable(sorted[1..], r, k);
      WithKeyAppend([sorted[0]], InsertByKey(sorted[1..], r), k);
      WithKeyAppend([sorted[0]], sorted[1..], k);
      assert sorted == [sorted[0]] + sorted[1..];
    } else {
      WithKeyAppend([r], sorted, k);
      if SortKey(r) == k {
        WithKeyNone(sorted, k);
      }
    }
  }

  /** The sort orders newest first, keeps every row, and keeps rows of
      equal key in their former order. */
  lemma {:induction false} SortNewestFirstFacts(rows: seq<ReportRow>)
    ensures NewestFirst(SortNewestFirst(rows))
    ensures multiset(SortNewestFirst(rows)) == multiset(rows)
    ensures forall k :: WithKey(SortNewestFirst(rows), k) == WithKey(rows, k)
    decreases |rows|
  {
    if rows != [] {
      var init := rows[..|rows| - 1];
      var last := rows[|rows| - 1];
      SortNewestFirstFacts(init);
      InsertByKeySorted(SortNewestFirst(init), last);
      InsertByKeyKeeps(SortNewestFirst(init), last);
      assert init + [last] == rows;
      forall k
        ensures WithKey(SortNewestFirst(rows), k) == WithKey(rows, k)
      {
        InsertByKeyStable(SortNewestFirst(init), last, k);
        WithKeyAppend(init, [last], k);
      }
    }
  }

  // ---------------------------------------------------------------- the response

  const HEADER: seq<string> := ["socio", "plan_nuevo", "plan_anterior", "start_date", "end_date", "status_registro",
                                "tipo_movimiento", "estado_actual", "created_at"]

  const EMPTY_MESSAGE: string := "mensaje\nNo se encontraron registros."

  /** A row's values in header order; a missing previous plan or creation
      time is null. */
  function Cells(r: ReportRow): seq<Option<string>> {
    [Some(r.socio), Some(r.planNuevo), r.planAnterior, Some(r.startDate), Some(r.endDate), Some(r.statusRegistro),
     Some(MovementText(r.tipo)), Some(EstadoText(r.activa)),
     if r.createdAt.Some? then Some(r.createdAt.value.text) else None]
  }

  function HeaderCells(): seq<Option<string>> {
    seq(|HEADER|, i requires 0 <= i < |HEADER| => Some(HEADER[i]))
  }

  /** The table: the keys of the first row as header and one escaped line
      per row; a fixed message when empty. The header needs no escaping,
      so escaping it changes nothing. */
  function MembershipsCsv(rows: seq<ReportRow>): string {
    if rows == [] then EMPTY_MESSAGE
    else Csv.Content([HeaderCells()] + seq(|rows|, i requires 0 <= i < |rows| => Cells(rows[i])))
  }

  /** Reading the table back gives the header and every row's values. */
  lemma MembershipsCsvReadsBack(rows: seq<ReportRow>)
    requires rows != []
    ensures Csv.ReadRows(MembershipsCsv(rows))
            == Some([HEADER] + seq(|rows|, i requires 0 <= i < |rows| => Csv.Values(Cells(rows[i]))))
  {
    var table := [HeaderCells()] + seq(|rows|, i requires 0 <= i < |rows| => Cells(rows[i]));
    Csv.ContentRoundTrip(table);
    assert Csv.Values(HeaderCells()) == HEADER;
    assert seq(|table|, i requires 0 <= i < |table| => Csv.Values(table[i]))
           == [HEADER] + seq(|rows|, i requires 0 <= i < |rows| => Csv.Values(Cells(rows[i])));
  }

  /** `date_field`, "created_at" when absent. */
  function DateField(param: Option<string>): string {
    param.GetOr("created_at")
  }

  /** The download's name, naming the bounds given and the date field. */
  function FileName(from: Option<string>, to: Option<string>, dateField: string): (name: string)
    ensures |name| >= 18 && name[..18] == "reporte_membresias"
    ensures |name| >= 5 + |dateField| && name[|name| - |dateField| - 5..] == "_" + dateField + ".csv"
  {
    "reporte_membresias"
    + (if from.Some? && from.value != "" then "_" + from.value else "")
    + (if to.Some? && to.value != "" then "_" + to.value else "")
    + "_" + dateField + ".csv"
  }

  /** The query sent: memberships with `dateField` inside the bounds
      (each only when given), ordered by athlete and start date, at most
      `limit` of them. */
  datatype MembershipQuery = MembershipQuery(dateField: string, isoFrom: Option<string>, isoTo: Option<string>, limit: int)

  /** The answers: the CSV file (status 200) or the error table (500). */
  datatype ReportResponse = CsvFile(fileName: string, body: string) | CsvError(body: string)

  /** `GET`. `offset` is the fixed local offset, `toParsed` the host's
      reading of the `to` bound, `data` what the query returns and
      `queryFault` its error. */
  method Get(offset: int, from: Option<string>, to: Option<string>, toParsed: Option<int>,
             dateFieldParam: Option<string>, limitParam: Option<string>,
             data: seq<Membership>, queryFault: Option<string>)
    returns (resp: ReportResponse, query: MembershipQuery, rows: seq<ReportRow>)
    ensures var range := ChileDateRange(offset, from, to, toParsed);
            && (range.Err? ==> resp == CsvError(SummaryReport.ErrorCsv(range.error)))
            && (range.Ok? ==> query == MembershipQuery(DateField(dateFieldParam), range.value.isoFrom,
                                                       range.value.isoTo, Limit(limitParam)))
            && (range.Ok? && queryFault.Some? ==> resp == CsvError(SummaryReport.ErrorCsv(queryFault.value)))
            && (range.Ok? && queryFault.None? ==>
                  var moves := Movements(ChileCalendar(offset), data);
                  && (moves.Err? ==> resp == CsvError(SummaryReport.ErrorCsv(moves.error)))
                  && (moves.Ok? ==>
                        && rows == SortNewestFirst(moves.value)
                        && resp == CsvFile(FileName(from, to, DateField(dateFieldParam)),
                                           [Csv.BOM] + MembershipsCsv(rows))))
  {
    rows := [];
    var dateField := DateField(dateFieldParam);
    var limit := Limit(limitParam);
    query := MembershipQuery(dateField, None, None, limit);
    var range := ChileDateRange(offset, from, to, toParsed);
    if range.Err? {
      return CsvError(SummaryReport.ErrorCsv(range.error)), query, rows;
    }
    query := MembershipQuery(dateField, range.value.isoFrom, range.value.isoTo, limit);
    if queryFault.Some? {
      return CsvError(SummaryReport.ErrorCsv(queryFault.value)), query, rows;
    }
    var moves := ClassifyAll(ChileCalendar(offset), data);
    if moves.Err? {
      return CsvError(SummaryReport.ErrorCsv(moves.error)), query, rows;
    }
    rows := SortNewestFirst(moves.value);
    resp := CsvFile(FileName(from, to, dateField), [Csv.BOM] + MembershipsCsv(rows));
  }
}
