/** The monthly summary download (app/api/admin/reports/summary/route.ts):
    access logs, new athletes and memberships of a date range are counted
    per local year-month in a dictionary filled lazily, the periods are
    sorted, and the table is sent as CSV. Rows come as the database
    returned them; the range filtering is the database's. */
module SummaryReport {
  import opened Wrappers
  import opened Text
  import opened ChileTime
  import opened Calendar
  import opened LexOrder
  import Csv

  /** `ym`: the first seven characters of the local date. */
  function Ym(offset: int, d: DateInput): (r: string)
    ensures |r| <= 7 && r == ToChileDateString(offset, d)[..|r|]
  {
    Prefix(ToChileDateString(offset, d), 7)
  }

  /** The period of a date whose instant lies on local day c (a real date
      in years 0 to 9999) is that day's year and month, `YYYY-MM`. */
  lemma YmOfLocalDay(offset: int, d: DateInput, t: int, c: Civil)
    requires ToDate(offset, d) == Some(t)
    requires ValidCivil(c) && 0 <= c.year <= 9999
    requires -1000000 <= offset <= 1000000
    requires DaysFromCivil(c.year, c.month, c.day) * MS_PER_DAY <= t + offset * MS_PER_MINUTE
             < DaysFromCivil(c.year, c.month, c.day) * MS_PER_DAY + MS_PER_DAY
    ensures Ym(offset, d) == PadNat(c.year, 4) + "-" + PadNat(c.month, 2)
  {
    LocalDateOf(offset, t, c);
    DateTextShape(c);
    assert ToChileDateString(offset, d) == DateText(c);
    assert DateText(c)[..7] == PadNat(c.year, 4) + "-" + PadNat(c.month, 2);
  }

  datatype AccessRow = AccessRow(ts: DateInput, result: Option<string>)
  datatype AthleteRow = AthleteRow(createdAt: DateInput)
  datatype MembershipRow = MembershipRow(createdAt: DateInput, status: Option<string>)

  /** One line of the report. */
  datatype SummaryRow = SummaryRow(
    periodo: string,
    accesosOk: nat,
    accesosNok: nat,
    accesosUnknownCard: nat,
    nuevosSocios: nat,
    membresiasNoActivasCreadas: nat)

  /** What one fetched row adds to its period: one of the three access
      counters, a new athlete, a membership created not active, or (for a
      membership created active) nothing but the period itself. */
  datatype Kind = AccessOk | AccessNok | AccessUnknown | NewAthlete | InactiveMembership | ActiveMembership

  datatype Tick = Tick(period: string, kind: Kind)

  /** The names an object literal inherits from `Object.prototype`. */
  const PROTOTYPE_NAMES: set<string> := {
    "constructor", "hasOwnProperty", "isPrototypeOf", "propertyIsEnumerable", "toLocaleString",
    "toString", "valueOf", "__proto__", "__defineGetter__", "__defineSetter__", "__lookupGetter__",
    "__lookupSetter__"}

  /** `statusToSummaryField[result ?? 'unknown_card'] || 'accesos_unknown_card'`
      as written: a result named like an inherited member finds that
      member, which is truthy, so the increment lands on a property that is
      no counter (None). That property is new and holds NaN; when its row
      is the first period, the CSV header taken from that row's keys gains
      an extra column for it. */
  function AccessKindAsWritten(result: Option<string>): (k: Option<Kind>)
    ensures k.None? <==> result.GetOr("unknown_card") in PROTOTYPE_NAMES
  {
    var key := result.GetOr("unknown_card");
    if key == "allowed" then Some(AccessOk)
    else if key == "denied" || key == "expired" then Some(AccessNok)
    else if key in PROTOTYPE_NAMES then None
    else Some(AccessUnknown)
  }

  /** An access log whose result is "constructor" is counted nowhere. */
  lemma PrototypeResultCountsNowhere()
    ensures AccessKindAsWritten(Some("constructor")) == None
    ensures AccessKind(Some("constructor")) == AccessUnknown
  {
  }

  /** The counter an access log goes to: "allowed" to ok, "denied" and
      "expired" to not ok, anything else (a missing result included) to
      unknown card. */
  function AccessKind(result: Option<string>): (k: Kind)
    ensures k == AccessOk <==> result == Some("allowed")
    ensures k == AccessNok <==> result == Some("denied") || result == Some("expired")
    ensures k == AccessUnknown <==> !(result == Some("allowed") || result == Some("denied") || result == Some("expired"))
  {
    match result
    case Some("allowed") => AccessOk
    case Some("denied") => AccessNok
    case Some("expired") => AccessNok
    case _ => AccessUnknown
  }

  /** A membership counts as not active when its status, a missing one
      read as "active", is not exactly "active". */
  function MembershipKind(status: Option<string>): Kind {
    if status.GetOr("active") != "active" then InactiveMembership else ActiveMembership
  }

  function AccessTicks(offset: int, acc: seq<AccessRow>): (t: seq<Tick>)
    ensures |t| == |acc|
  {
    seq(|acc|, i requires 0 <= i < |acc| => Tick(Ym(offset, acc[i].ts), AccessKind(acc[i].result)))
  }

  function AthleteTicks(offset: int, ath: seq<AthleteRow>): (t: seq<Tick>)
    ensures |t| == |ath|
  {
    seq(|ath|, i requires 0 <= i < |ath| => Tick(Ym(offset, ath[i].createdAt), NewAthlete))
  }

  function MembershipTicks(offset: int, mem: seq<MembershipRow>): (t: seq<Tick>)
    ensures |t| == |mem|
  {
    seq(|mem|, i requires 0 <= i < |mem| => Tick(Ym(offset, mem[i].createdAt), MembershipKind(mem[i].status)))
  }

  /** Everything the three loops see, in the order they see it. */
  function AllTicks(offset: int, acc: seq<AccessRow>, ath: seq<AthleteRow>, mem: seq<MembershipRow>): seq<Tick> {
    AccessTicks(offset, acc) + AthleteTicks(offset, ath) + MembershipTicks(offset, mem)
  }

  // ---------------------------------------------------------------- the dictionary

  function Zero(p: string): SummaryRow {
    SummaryRow(p, 0, 0, 0, 0, 0)
  }

  /** `ensure(p)`: the period's row, created with every counter at zero
      the first time. */
  function Ensure(m: map<string, SummaryRow>, p: string): map<string, SummaryRow>
  {
    if p in m then m else m[p := Zero(p)]
  }

  /** One increment. */
  function Bump(row: SummaryRow, k: Kind): SummaryRow {
    match k
    case AccessOk => row.(accesosOk := row.accesosOk + 1)
    case AccessNok => row.(accesosNok := row.accesosNok + 1)
    case AccessUnknown => row.(accesosUnknownCard := row.accesosUnknownCard + 1)
    case NewAthlete => row.(nuevosSocios := row.nuevosSocios + 1)
    case InactiveMembership => row.(membresiasNoActivasCreadas := row.membresiasNoActivasCreadas + 1)
    case ActiveMembership => row
  }

  function Add(m: map<string, SummaryRow>, t: Tick): map<string, SummaryRow> {
    var e := Ensure(m, t.period);
    e[t.period := Bump(e[t.period], t.kind)]
  }

  /** The dictionary after processing `ticks` in order. */
  function Tally(ticks: seq<Tick>): map<string, SummaryRow>
    decreases |ticks|
  {
    if ticks == [] then map[] else Add(Tally(ticks[..|ticks| - 1]), ticks[|ticks| - 1])
  }

  /** How many of `ticks` are of kind `k` in period `p`. */
  function Count(ticks: seq<Tick>, p: string, k: Kind): (n: nat)
    ensures n <= |ticks|
    decreases |ticks|
  {
    if ticks == [] then 0
    else Count(ticks[..|ticks| - 1], p, k) + (if ticks[|ticks| - 1] == Tick(p, k) then 1 else 0)
  }

  function Periods(ticks: seq<Tick>): set<string> {
    set i | 0 <= i < |ticks| :: ticks[i].period
  }

  /** The row a period should have: each counter is the number of its
      kind of rows in the period. */
  function RowOf(ticks: seq<Tick>, p: string): SummaryRow {
    SummaryRow(p, Count(ticks, p, AccessOk), Count(ticks, p, AccessNok), Count(ticks, p, AccessUnknown),
               Count(ticks, p, NewAthlete), Count(ticks, p, InactiveMembership))
  }

  lemma {:induction false} CountOutside(ticks: seq<Tick>, p: string, k: Kind)
    requires p !in Periods(ticks)
    ensures Count(ticks, p, k) == 0
    decreases |ticks|
  {
    if ticks != [] {
      var init := ticks[..|ticks| - 1];
      assert Periods(init) <= Periods(ticks) by {
        forall q | q in Periods(init) ensures q in Periods(ticks) {
          var i :| 0 <= i < |init| && init[i].period == q;
          assert ticks[i].period == q;
        }
      }
      CountOutside(init, p, k);
      assert ticks[|ticks| - 1].period in Periods(ticks);
    }
  }

  lemma PeriodsSnoc(ticks: seq<Tick>)
    requires ticks != []
    ensures Periods(ticks) == Periods(ticks[..|ticks| - 1]) + {ticks[|ticks| - 1].period}
  {
    var init := ticks[..|ticks| - 1];
    forall q | q in Periods(ticks) ensures q in Periods(init) + {ticks[|ticks| - 1].period} {
      var i :| 0 <= i < |ticks| && ticks[i].period == q;
      if i < |init| {
        assert init[i].period == q;
      }
    }
    forall q | q in Periods(init) ensures q in Periods(ticks) {
      var i :| 0 <= i < |init| && init[i].period == q;
      assert ticks[i].period == q;
    }
  }

  /** The dictionary has a row for exactly the periods seen, and each row
      holds the counts of its period. */
  lemma {:induction false} TallyMeaning(ticks: seq<Tick>)
    ensures Tally(ticks).Keys == Periods(ticks)
    ensures forall p :: p in Tally(ticks) ==> Tally(ticks)[p] == RowOf(ticks, p)
    decreases |ticks|
  {
    if ticks != [] {
      var init := ticks[..|ticks| - 1];
      var last := ticks[|ticks| - 1];
      TallyMeaning(init);
      PeriodsSnoc(ticks);
      var m := Tally(init);
      assert Tally(ticks) == Add(m, last);
      if last.period !in Periods(init) {
        CountOutside(init, last.period, AccessOk);
        CountOutside(init, last.period, AccessNok);
        CountOutside(init, last.period, AccessUnknown);
        CountOutside(init, last.period, NewAthlete);
        CountOutside(init, last.period, InactiveMembership);
      }
      forall p | p in Tally(ticks) ensures Tally(ticks)[p] == RowOf(ticks, p) {
        if p != last.period {
          assert Tally(ticks)[p] == m[p];
        }
      }
    }
  }

  /** Exactly one access counter of its period goes up per access log. */
  lemma OneCounterPerAccess(offset: int, row: AccessRow)
    ensures var t := AccessTicks(offset, [row])[0];
            t.period == Ym(offset, row.ts)
            && (t.kind == AccessOk || t.kind == AccessNok || t.kind == AccessUnknown)
  {
  }

  // ---------------------------------------------------------------- totals

  /** The sum of ok + not ok + unknown over report rows. */
  function AccessTotal(rows: seq<SummaryRow>): nat
    decreases |rows|
  {
    if rows == [] then 0
    else AccessTotal(rows[..|rows| - 1])
         + rows[|rows| - 1].accesosOk + rows[|rows| - 1].accesosNok + rows[|rows| - 1].accesosUnknownCard
  }

  /** How many of `ticks` are of kind `k`, in any period. */
  function CountKind(ticks: seq<Tick>, k: Kind): (n: nat)
    decreases |ticks|
  {
    if ticks == [] then 0
    else CountKind(ticks[..|ticks| - 1], k) + (if ticks[|ticks| - 1].kind == k then 1 else 0)
  }

  /** The counts of kind `k` in the periods `ps`, added up. */
  function SumOver(ticks: seq<Tick>, ps: seq<string>, k: Kind): nat
    decreases |ps|
  {
    if ps == [] then 0 else SumOver(ticks, ps[..|ps| - 1], k) + Count(ticks, ps[|ps| - 1], k)
  }

  function Occurrences(ps: seq<string>, p: string): nat
    decreases |ps|
  {
    if ps == [] then 0 else Occurrences(ps[..|ps| - 1], p) + (if ps[|ps| - 1] == p then 1 else 0)
  }

  predicate Distinct(ps: seq<string>) {
    forall i, j :: 0 <= i < j < |ps| ==> ps[i] != ps[j]
  }

  lemma {:induction false} OccursOnce(ps: seq<string>, p: string)
    requires Distinct(ps)
    ensures Occurrences(ps, p) == (if p in ps then 1 else 0)
    decreases |ps|
  {
    if ps != [] {
      var init := ps[..|ps| - 1];
      OccursOnce(init, p);
      if ps[|ps| - 1] == p {
        assert p !in init;
      }
      assert p in ps <==> p in init || ps[|ps| - 1] == p by {
        if p in ps {
          var i :| 0 <= i < |ps| && ps[i] == p;
          if i < |init| { assert init[i] == p; }
        }
      }
    }
  }

  /** Adding one tick adds, over the periods, one per listing of its period. */
  lemma {:induction false} SumOverSnoc(ticks: seq<Tick>, t: Tick, ps: seq<string>, k: Kind)
    ensures SumOver(ticks + [t], ps, k) == SumOver(ticks, ps, k) + (if t.kind == k then Occurrences(ps, t.period) else 0)
    decreases |ps|
  {
    assert (ticks + [t])[..|ticks|] == ticks;
    if ps != [] {
      SumOverSnoc(ticks, t, ps[..|ps| - 1], k);
    }
  }

  /** Over distinct periods that include every period seen, the counts of a
      kind add up to the number of ticks of that kind. */
  lemma {:induction false} SumOverAll(ticks: seq<Tick>, ps: seq<string>, k: Kind)
    requires Distinct(ps)
    requires forall i :: 0 <= i < |ticks| ==> ticks[i].period in ps
    ensures SumOver(ticks, ps, k) == CountKind(ticks, k)
    decreases |ticks|
  {
    if ticks == [] {
      SumOverEmpty(ps, k);
    } else {
      var init := ticks[..|ticks| - 1];
      var last := ticks[|ticks| - 1];
      SumOverAll(init, ps, k);
      assert init + [last] == ticks;
      SumOverSnoc(init, last, ps, k);
      OccursOnce(ps, last.period);
    }
  }

  lemma {:induction false} SumOverEmpty(ps: seq<string>, k: Kind)
    ensures SumOver([], ps, k) == 0
    decreases |ps|
  {
    if ps != [] {
      SumOverEmpty(ps[..|ps| - 1], k);
    }
  }

  lemma {:induction false} CountKindAppend(a: seq<Tick>, b: seq<Tick>, k: Kind)
    ensures CountKind(a + b, k) == CountKind(a, k) + CountKind(b, k)
    decreases |b|
  {
    if b == [] {
      assert a + b == a;
    } else {
      CountKindAppend(a, b[..|b| - 1], k);
      assert (a + b)[..|a + b| - 1] == a + b[..|b| - 1];
    }
  }

  lemma {:induction false} CountKindNone(ticks: seq<Tick>, k: Kind)
    requires forall i :: 0 <= i < |ticks| ==> ticks[i].kind != k
    ensures CountKind(ticks, k) == 0
    decreases |ticks|
  {
    if ticks != [] {
      CountKindNone(ticks[..|ticks| - 1], k);
    }
  }

  /** Every access tick is of one of the three access kinds. */
  lemma {:induction false} AccessKindsCover(ticks: seq<Tick>)
    requires forall i :: 0 <= i < |ticks| ==> ticks[i].kind in {AccessOk, AccessNok, AccessUnknown}
    ensures CountKind(ticks, AccessOk) + CountKind(ticks, AccessNok) + CountKind(ticks, AccessUnknown) == |ticks|
    decreases |ticks|
  {
    if ticks != [] {
      AccessKindsCover(ticks[..|ticks| - 1]);
    }
  }

  /** Rows that are the periods' rows, summed. */
  lemma {:induction false} AccessTotalOfRows(ticks: seq<Tick>, rows: seq<SummaryRow>)
    requires forall j :: 0 <= j < |rows| ==> rows[j] == RowOf(ticks, rows[j].periodo)
    ensures var ps := seq(|rows|, j requires 0 <= j < |rows| => rows[j].periodo);
            AccessTotal(rows) == SumOver(ticks, ps, AccessOk) + SumOver(ticks, ps, AccessNok) + SumOver(ticks, ps, AccessUnknown)
    decreases |rows|
  {
    if rows != [] {
      var init := rows[..|rows| - 1];
      AccessTotalOfRows(ticks, init);
      var ps := seq(|rows|, j requires 0 <= j < |rows| => rows[j].periodo);
      assert ps[..|ps| - 1] == seq(|init|, j requires 0 <= j < |init| => init[j].periodo);
    }
  }

  // ---------------------------------------------------------------- the report rows

  /** Sorted by period, earliest first, each period once. */
  predicate Ascending(rows: seq<SummaryRow>) {
    forall i, j :: 0 <= i < j < |rows| ==> LexLess(rows[i].periodo, rows[j].periodo)
  }

  function PeriodSet(rows: seq<SummaryRow>): set<string> {
    set j | 0 <= j < |rows| :: rows[j].periodo
  }

  /** What the report's rows are: one per period seen, in ascending order,
      each holding its period's counts. */
  predicate IsSummary(rows: seq<SummaryRow>, ticks: seq<Tick>) {
    && Ascending(rows)
    && PeriodSet(rows) == Periods(ticks)
    && forall j :: 0 <= j < |rows| ==> rows[j] == RowOf(ticks, rows[j].periodo)
  }

  /** The report's periods, in order, are distinct and include every
      period seen. */
  lemma RowsCoverPeriods(rows: seq<SummaryRow>, ticks: seq<Tick>)
    requires IsSummary(rows, ticks)
    ensures var ps := seq(|rows|, j requires 0 <= j < |rows| => rows[j].periodo);
            Distinct(ps) && forall i :: 0 <= i < |ticks| ==> ticks[i].period in ps
  {
    var ps := seq(|rows|, j requires 0 <= j < |rows| => rows[j].periodo);
    forall i, j | 0 <= i < j < |ps| ensures ps[i] != ps[j] {
      LexIrreflexive(ps[i]);
    }
    forall i | 0 <= i < |ticks| ensures ticks[i].period in ps {
      assert ticks[i].period in Periods(ticks);
      var j :| 0 <= j < |rows| && rows[j].periodo == ticks[i].period;
      assert ps[j] == ticks[i].period;
    }
  }

  /** Access ticks followed by other ticks: the access counts add up to
      the number of access ticks. */
  lemma AccessCountsOfPrefix(a: seq<Tick>, rest: seq<Tick>)
    requires forall i :: 0 <= i < |a| ==> a[i].kind in {AccessOk, AccessNok, AccessUnknown}
    requires forall i :: 0 <= i < |rest| ==> rest[i].kind !in {AccessOk, AccessNok, AccessUnknown}
    ensures CountKind(a + rest, AccessOk) + CountKind(a + rest, AccessNok) + CountKind(a + rest, AccessUnknown) == |a|
  {
    CountKindAppend(a, rest, AccessOk);
    CountKindNone(rest, AccessOk);
    CountKindAppend(a, rest, AccessNok);
    CountKindNone(rest, AccessNok);
    CountKindAppend(a, rest, AccessUnknown);
    CountKindNone(rest, AccessUnknown);
    AccessKindsCover(a);
  }

  /** Every access log, and nothing else, is an access tick. */
  lemma AccessTickTotal(offset: int, acc: seq<AccessRow>, ath: seq<AthleteRow>, mem: seq<MembershipRow>)
    ensures var ticks := AllTicks(offset, acc, ath, mem);
            CountKind(ticks, AccessOk) + CountKind(ticks, AccessNok) + CountKind(ticks, AccessUnknown) == |acc|
  {
    var a := AccessTicks(offset, acc);
    var b := AthleteTicks(offset, ath);
    var c := MembershipTicks(offset, mem);
    var rest := b + c;
    forall i | 0 <= i < |rest| ensures rest[i].kind !in {AccessOk, AccessNok, AccessUnknown} {
      if i < |b| {
        assert rest[i] == b[i];
      } else {
        assert rest[i] == c[i - |b|];
      }
    }
    assert AllTicks(offset, acc, ath, mem) == a + rest;
    AccessCountsOfPrefix(a, rest);
  }

  /** The counters of the report add up: ok + not ok + unknown over all
      periods is the number of access logs. */
  lemma AccessTotalsMatch(offset: int, acc: seq<AccessRow>, ath: seq<AthleteRow>,
                          mem: seq<MembershipRow>, rows: seq<SummaryRow>)
    requires IsSummary(rows, AllTicks(offset, acc, ath, mem))
    ensures AccessTotal(rows) == |acc|
  {
    var ticks := AllTicks(offset, acc, ath, mem);
    var ps := seq(|rows|, j requires 0 <= j < |rows| => rows[j].periodo);
    AccessTotalOfRows(ticks, rows);
    RowsCoverPeriods(rows, ticks);
    SumOverAll(ticks, ps, AccessOk);
    SumOverAll(ticks, ps, AccessNok);
    SumOverAll(ticks, ps, AccessUnknown);
    AccessTickTotal(offset, acc, ath, mem);
  }

  /** Inserts a row of a new period at its place. */
  method InsertRow(rows: seq<SummaryRow>, row: SummaryRow) returns (r: seq<SummaryRow>)
    requires Ascending(rows)
    requires row.periodo !in PeriodSet(rows)
    ensures Ascending(r)
    ensures |r| == |rows| + 1
    ensures forall x :: x in r <==> x in rows || x == row
    ensures PeriodSet(r) == PeriodSet(rows) + {row.periodo}
  {
    var k := 0;
    while k < |rows| && !LexLess(row.periodo, rows[k].periodo)
      invariant 0 <= k <= |rows|
      invariant forall i :: 0 <= i < k ==> LexLess(rows[i].periodo, row.periodo)
    {
      assert rows[k].periodo in PeriodSet(rows);
      LexTotal(rows[k].periodo, row.periodo);
      k := k + 1;
    }
    r := rows[..k] + [row] + rows[k..];
    InsertedAscending(rows, row, k);
    InsertedPeriods(rows, row, k);
  }

  /** A row put after the rows of earlier periods and before those of
      later ones keeps the order. */
  lemma InsertedAscending(rows: seq<SummaryRow>, row: SummaryRow, k: nat)
    requires Ascending(rows) && k <= |rows|
    requires forall i :: 0 <= i < k ==> LexLess(rows[i].periodo, row.periodo)
    requires k < |rows| ==> LexLess(row.periodo, rows[k].periodo)
    ensures Ascending(rows[..k] + [row] + rows[k..])
  {
    var r := rows[..k] + [row] + rows[k..];
    forall i, j | 0 <= i < j < |r|
      ensures LexLess(r[i].periodo, r[j].periodo)
    {
      if j < k {
        assert r[i] == rows[i] && r[j] == rows[j];
      } else if j == k {
        assert r[i] == rows[i];
      } else {
        assert r[j] == rows[j - 1];
        if i < k {
          assert r[i] == rows[i];
        } else if i == k {
          if j - 1 > k {
            LexTransitive(row.periodo, rows[k].periodo, rows[j - 1].periodo);
          }
        } else {
          assert r[i] == rows[i - 1];
        }
      }
    }
  }

  /** Inserting a row adds its period and its row and nothing else. */
  lemma InsertedPeriods(rows: seq<SummaryRow>, row: SummaryRow, k: nat)
    requires k <= |rows|
    ensures var r := rows[..k] + [row] + rows[k..];
            && (forall x :: x in r <==> x in rows || x == row)
            && PeriodSet(r) == PeriodSet(rows) + {row.periodo}
  {
    var r := rows[..k] + [row] + rows[k..];
    assert rows == rows[..k] + rows[k..];
    assert forall x :: x in r <==> x in rows || x == row;
    PeriodSetOfElements(r);
    PeriodSetOfElements(rows);
  }

  /** The periods of some rows are the periods of their elements. */
  lemma PeriodSetOfElements(rows: seq<SummaryRow>)
    ensures PeriodSet(rows) == set x | x in rows :: x.periodo
  {
    forall q | q in set x | x in rows :: x.periodo
      ensures q in PeriodSet(rows)
    {
      var x :| x in rows && x.periodo == q;
      var j :| 0 <= j < |rows| && rows[j] == x;
      assert rows[j].periodo in PeriodSet(rows);
    }
  }

  /** `Object.values(byPeriod).sort(...)` by period. */
  method SortedRows(byPeriod: map<string, SummaryRow>) returns (rows: seq<SummaryRow>)
    requires forall p :: p in byPeriod ==> byPeriod[p].periodo == p
    ensures Ascending(rows)
    ensures PeriodSet(rows) == byPeriod.Keys
    ensures RowsOf(rows, byPeriod)
  {
    rows := [];
    var remaining := byPeriod.Keys;
    while remaining != {}
      invariant remaining <= byPeriod.Keys
      invariant Ascending(rows)
      invariant PeriodSet(rows) == byPeriod.Keys - remaining
      invariant RowsOf(rows, byPeriod)
      decreases |remaining|
    {
      var p :| p in remaining;
      ghost var before := rows;
      rows := InsertRow(rows, byPeriod[p]);
      RowsOfGrown(before, rows, byPeriod, p);
      remaining := remaining - {p};
    }
  }

  /** Every row is the map's row of its own period. */
  predicate RowsOf(rows: seq<SummaryRow>, byPeriod: map<string, SummaryRow>) {
    forall j :: 0 <= j < |rows| ==> rows[j].periodo in byPeriod && rows[j] == byPeriod[rows[j].periodo]
  }

  lemma RowsOfGrown(before: seq<SummaryRow>, rows: seq<SummaryRow>, byPeriod: map<string, SummaryRow>, p: string)
    requires RowsOf(before, byPeriod) && p in byPeriod && byPeriod[p].periodo == p
    requires forall x :: x in rows <==> x in before || x == byPeriod[p]
    ensures RowsOf(rows, byPeriod)
  {
    forall j | 0 <= j < |rows|
      ensures rows[j].periodo in byPeriod && rows[j] == byPeriod[rows[j].periodo]
    {
      assert rows[j] in rows;
      if rows[j] in before {
        var i :| 0 <= i < |before| && before[i] == rows[j];
      }
    }
  }


  /** One more tick of `ticks` processed after `done`. */
  lemma TallyStep(done: seq<Tick>, ticks: seq<Tick>, i: nat)
    requires i < |ticks|
    ensures Tally(done + ticks[..i + 1]) == Add(Tally(done + ticks[..i]), ticks[i])
  {
    var s := done + ticks[..i + 1];
    assert s[..|s| - 1] == done + ticks[..i];
  }

  /** The ends of a loop over `ticks` after `done`. */
  lemma TallyEnds(done: seq<Tick>, ticks: seq<Tick>)
    ensures done + ticks[..0] == done
    ensures done + ticks[..|ticks|] == done + ticks
  {
    assert ticks[..|ticks|] == ticks;
  }

  /** One access log: its period's row is created if need be and the
      counter its result maps to goes up. */
  method CountAccess(m: map<string, SummaryRow>, p: string, result: Option<string>)
    returns (byPeriod: map<string, SummaryRow>)
    ensures byPeriod == Add(m, Tick(p, AccessKind(result)))
  {
    byPeriod := Ensure(m, p);
    var field := AccessKind(result);
    byPeriod := byPeriod[p := Bump(byPeriod[p], field)];
  }

  /** The loop over the access logs. */
  method TallyAccesses(m: map<string, SummaryRow>, ghost done: seq<Tick>, offset: int, acc: seq<AccessRow>)
    returns (byPeriod: map<string, SummaryRow>)
    requires m == Tally(done)
    ensures byPeriod == Tally(done + AccessTicks(offset, acc))
  {
    ghost var ticks := AccessTicks(offset, acc);
    byPeriod := m;
    var i := 0;
    TallyEnds(done, ticks);
    while i < |acc|
      invariant 0 <= i <= |acc|
      invariant byPeriod == Tally(done + ticks[..i])
    {
      var p := Ym(offset, acc[i].ts);
      byPeriod := CountAccess(byPeriod, p, acc[i].result);
      TallyStep(done, ticks, i);
      i := i + 1;
    }
  }

  /** One new athlete: its period's row is created if need be and its
      new-athlete counter goes up. */
  method CountNewAthlete(m: map<string, SummaryRow>, p: string) returns (byPeriod: map<string, SummaryRow>)
    ensures byPeriod == Add(m, Tick(p, NewAthlete))
  {
    byPeriod := Ensure(m, p);
    byPeriod := byPeriod[p := byPeriod[p].(nuevosSocios := byPeriod[p].nuevosSocios + 1)];
  }

  /** One membership: its period's row is created if need be, and its
      counter goes up only when the status is not "active". */
  method CountMembership(m: map<string, SummaryRow>, p: string, status: Option<string>)
    returns (byPeriod: map<string, SummaryRow>)
    ensures byPeriod == Add(m, Tick(p, MembershipKind(status)))
  {
    byPeriod := Ensure(m, p);
    if status.GetOr("active") != "active" {
      byPeriod := byPeriod[p := byPeriod[p].(membresiasNoActivasCreadas := byPeriod[p].membresiasNoActivasCreadas + 1)];
    } else {
      assert byPeriod == byPeriod[p := Bump(byPeriod[p], ActiveMembership)];
    }
  }

  /** The loop over the new athletes. */
  method TallyAthletes(m: map<string, SummaryRow>, ghost done: seq<Tick>, offset: int, ath: seq<AthleteRow>)
    returns (byPeriod: map<string, SummaryRow>)
    requires m == Tally(done)
    ensures byPeriod == Tally(done + AthleteTicks(offset, ath))
  {
    ghost var ticks := AthleteTicks(offset, ath);
    byPeriod := m;
    var i := 0;
    TallyEnds(done, ticks);
    while i < |ath|
      invariant 0 <= i <= |ath|
      invariant byPeriod == Tally(done + ticks[..i])
    {
      var p := Ym(offset, ath[i].createdAt);
      byPeriod := CountNewAthlete(byPeriod, p);
      TallyStep(done, ticks, i);
      i := i + 1;
    }
  }

  /** The loop over the memberships: a period is created for each, and
      only those created not active are counted. */
  method TallyMemberships(m: map<string, SummaryRow>, ghost done: seq<Tick>, offset: int, mem: seq<MembershipRow>)
    returns (byPeriod: map<string, SummaryRow>)
    requires m == Tally(done)
    ensures byPeriod == Tally(done + MembershipTicks(offset, mem))
  {
    ghost var ticks := MembershipTicks(offset, mem);
    byPeriod := m;
    var i := 0;
    TallyEnds(done, ticks);
    while i < |mem|
      invariant 0 <= i <= |mem|
      invariant byPeriod == Tally(done + ticks[..i])
    {
      var p := Ym(offset, mem[i].createdAt);
      byPeriod := CountMembership(byPeriod, p, mem[i].status);
      TallyStep(done, ticks, i);
      i := i + 1;
    }
  }

  /** The three loops of `GET` and the sort: the report's rows. */
  method Summarize(offset: int, acc: seq<AccessRow>, ath: seq<AthleteRow>, mem: seq<MembershipRow>)
    returns (rows: seq<SummaryRow>)
    ensures IsSummary(rows, AllTicks(offset, acc, ath, mem))
  {
    assert Tally([]) == map[];
    var byPeriod := TallyAccesses(map[], [], offset, acc);
    assert [] + AccessTicks(offset, acc) == AccessTicks(offset, acc);
    byPeriod := TallyAthletes(byPeriod, AccessTicks(offset, acc), offset, ath);
    byPeriod := TallyMemberships(byPeriod, AccessTicks(offset, acc) + AthleteTicks(offset, ath), offset, mem);
    ghost var ticks := AllTicks(offset, acc, ath, mem);
    TallyMeaning(ticks);
    rows := SortedRows(byPeriod);
  }

  // ---------------------------------------------------------------- the response

  const HEADER: seq<string> := ["periodo", "accesos_ok", "accesos_nok", "accesos_unknown_card", "nuevos_socios",
                                "membresias_no_activas_creadas"]

  const EMPTY_MESSAGE: string := "mensaje\nNo hay datos disponibles para el resumen solicitado."

  function Cells(r: SummaryRow): seq<Option<string>> {
    [Some(r.periodo), Some(NatToString(r.accesosOk)), Some(NatToString(r.accesosNok)),
     Some(NatToString(r.accesosUnknownCard)), Some(NatToString(r.nuevosSocios)),
     Some(NatToString(r.membresiasNoActivasCreadas))]
  }

  function HeaderCells(): seq<Option<string>> {
    seq(|HEADER|, i requires 0 <= i < |HEADER| => Some(HEADER[i]))
  }

  /** The table: the header and one line per row, each value escaped by
      the quote, comma and line-feed rule; a fixed message when empty. The
      header needs no escaping, so escaping it changes nothing. */
  function SummaryCsv(rows: seq<SummaryRow>): string {
    if rows == [] then EMPTY_MESSAGE
    else Csv.Content([HeaderCells()] + seq(|rows|, i requires 0 <= i < |rows| => Cells(rows[i])))
  }

  /** Reading the table back gives the header and every row's values. */
  lemma SummaryCsvReadsBack(rows: seq<SummaryRow>)
    requires rows != []
    ensures Csv.ReadRows(SummaryCsv(rows))
            == Some([HEADER] + seq(|rows|, i requires 0 <= i < |rows| => Csv.Values(Cells(rows[i]))))
  {
    var table := [HeaderCells()] + seq(|rows|, i requires 0 <= i < |rows| => Cells(rows[i]));
    Csv.ContentRoundTrip(table);
    assert Csv.Values(HeaderCells()) == HEADER;
    assert seq(|table|, i requires 0 <= i < |table| => Csv.Values(table[i]))
           == [HEADER] + seq(|rows|, i requires 0 <= i < |rows| => Csv.Values(Cells(rows[i])));
  }

  /** The body of the error answer: the message always quoted. */
  function ErrorCsv(message: string): string {
    "error,detalle\ntrue,\"" + Csv.DoubleQuotes(message) + "\""
  }

  /** A cell always quoted, as the error answer writes its message, reads
      back as the text. */
  lemma QuotedReadsBack(message: string)
    ensures Csv.ReadRow("\"" + Csv.DoubleQuotes(message) + "\"") == Some(([message], []))
  {
    var quoted := "\"" + Csv.DoubleQuotes(message) + "\"";
    Csv.QuotedBodyOfDoubled(message, []);
    assert quoted[1..] == Csv.DoubleQuotes(message) + "\"" + [];
    assert Csv.ReadCell(quoted) == Some((message, []));
  }

  /** The second line of the error answer reads back as "true" and the
      message. */
  lemma ErrorLineReadsBack(message: string)
    ensures Csv.ReadRow("true,\"" + Csv.DoubleQuotes(message) + "\"") == Some((["true", message], []))
  {
    var quoted := "\"" + Csv.DoubleQuotes(message) + "\"";
    var line := "true," + quoted;
    assert line == "true,\"" + Csv.DoubleQuotes(message) + "\"";
    Csv.PlainCellOf("true", "," + quoted);
    assert line == "true" + ("," + quoted);
    assert line[0] == 't';
    assert Csv.ReadCell(line) == Some(("true", "," + quoted));
    assert ("," + quoted)[1..] == quoted;
    QuotedReadsBack(message);
    assert Csv.ReadRow(line) == Some((["true"] + [message], []));
    assert ["true"] + [message] == ["true", message];
  }

  /** The header line of the error answer. */
  lemma ErrorHeaderReadsBack(rest: string)
    ensures Csv.ReadRow("error,detalle\n" + rest) == Some((["error", "detalle"], "\n" + rest))
  {
    var line := "error,detalle\n" + rest;
    var tail := "detalle" + ("\n" + rest);
    Csv.PlainCellOf("error", "," + tail);
    assert line == "error" + ("," + tail);
    assert line[0] == 'e';
    assert Csv.ReadCell(line) == Some(("error", "," + tail));
    assert ("," + tail)[1..] == tail;
    Csv.PlainCellOf("detalle", "\n" + rest);
    assert tail[0] == 'd';
    assert Csv.ReadCell(tail) == Some(("detalle", "\n" + rest));
    assert Csv.ReadRow(tail) == Some((["detalle"], "\n" + rest));
    assert Csv.ReadRow(line) == Some((["error"] + ["detalle"], "\n" + rest));
    assert ["error"] + ["detalle"] == ["error", "detalle"];
  }

  /** Reading the error answer back gives the message unchanged. */
  lemma ErrorCsvReadsBack(message: string)
    ensures Csv.ReadRows(ErrorCsv(message)) == Some([["error", "detalle"], ["true", message]])
  {
    var line := "true,\"" + Csv.DoubleQuotes(message) + "\"";
    var d := Csv.DoubleQuotes(message);
    assert "error,detalle\ntrue,\"" == "error,detalle\n" + "true,\"";
    assert ErrorCsv(message) == "error,detalle\n" + "true,\"" + d + "\"";
    assert ErrorCsv(message) == "error,detalle\n" + line;
    ErrorHeaderReadsBack(line);
    ErrorLineReadsBack(message);
    assert Csv.ReadRows(line) == Some([["true", message]]);
    assert ("\n" + line)[1..] == line;
    assert Csv.ReadRows(ErrorCsv(message)) == Some([["error", "detalle"]] + [["true", message]]);
    assert [["error", "detalle"]] + [["true", message]] == [["error", "detalle"], ["true", message]];
  }

  /** The download's name, naming the bounds given. */
  function FileName(from: Option<string>, to: Option<string>): (name: string)
    ensures |name| >= 27 && name[..23] == "reporte_resumen_mensual" && name[|name| - 4..] == ".csv"
    ensures (from.None? || from == Some("")) && (to.None? || to == Some("")) ==> name == "reporte_resumen_mensual.csv"
  {
    "reporte_resumen_mensual"
    + (if from.Some? && from.value != "" then "_" + from.value else "")
    + (if to.Some? && to.value != "" then "_" + to.value else "")
    + ".csv"
  }

  /** The answers: the CSV file (status 200) or the error table (500). */
  datatype SummaryResponse = CsvFile(fileName: string, body: string) | CsvError(body: string)

  /** `GET`. `offset` is the fixed local offset, `toParsed` the host's
      reading of the `to` bound; the three faults are the errors of the
      three queries, whose results are `acc`, `ath` and `mem`. */
  method Get(offset: int, from: Option<string>, to: Option<string>, toParsed: Option<int>,
             acc: seq<AccessRow>, ath: seq<AthleteRow>, mem: seq<MembershipRow>,
             accFault: Option<string>, athFault: Option<string>, memFault: Option<string>)
    returns (resp: SummaryResponse, rows: seq<SummaryRow>)
    ensures var range := ChileDateRange(offset, from, to, toParsed);
            && (range.Err? ==> resp == CsvError(ErrorCsv(range.error)))
            && (range.Ok? && accFault.Some? ==> resp == CsvError(ErrorCsv(accFault.value)))
            && (range.Ok? && accFault.None? && athFault.Some? ==> resp == CsvError(ErrorCsv(athFault.value)))
            && (range.Ok? && accFault.None? && athFault.None? && memFault.Some? ==>
                  resp == CsvError(ErrorCsv(memFault.value)))
            && (range.Ok? && accFault.None? && athFault.None? && memFault.None? ==>
                  && IsSummary(rows, AllTicks(offset, acc, ath, mem))
                  && resp == CsvFile(FileName(from, to), [Csv.BOM] + SummaryCsv(rows)))
  {
    rows := [];
    var range := ChileDateRange(offset, from, to, toParsed);
    if range.Err? {
      return CsvError(ErrorCsv(range.error)), rows;
    }
    if accFault.Some? {
      return CsvError(ErrorCsv(accFault.value)), rows;
    }
    if athFault.Some? {
      return CsvError(ErrorCsv(athFault.value)), rows;
    }
    if memFault.Some? {
      return CsvError(ErrorCsv(memFault.value)), rows;
    }
    rows := Summarize(offset, acc, ath, mem);
    resp := CsvFile(FileName(from, to), [Csv.BOM] + SummaryCsv(rows));
  }
}
