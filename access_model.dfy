/** The rows the access pipeline reads and writes (the `cards`,
    `memberships` and `access_logs` tables), the single-row card lookup,
    the UTC "today" and the ordering of a member's memberships by start
    date. Membership dates are SQL `date` columns: the model keeps them as
    day numbers (days since 1970-01-01 UTC), so a `Date` built from one is
    that day's UTC midnight. */
module AccessModel {
  import opened Wrappers
  import opened Calendar

  /** A `memberships` row; `None` is a SQL null. */
  datatype Membership = Membership(
    athleteId: string,
    plan: Option<string>,
    status: Option<string>,
    start: Option<int>,
    end: Option<int>)

  /** The athlete joined to a card. The public photo URL comes from the
      storage service and is kept as an opaque value. */
  datatype AthleteLite = AthleteLite(
    name: Option<string>,
    email: Option<string>,
    phone: Option<string>,
    photoUrl: Option<string>)

  /** A `cards` row with its joined athlete (absent when the join is empty). */
  datatype Card = Card(id: string, uid: string, active: bool, athleteId: string, athlete: Option<AthleteLite>)

  datatype AccessResult = Allowed | Denied | Expired | UnknownCard
  {
    /** The value stored in `access_logs.result`. */
    function Name(): string {
      match this
      case Allowed => "allowed"
      case Denied => "denied"
      case Expired => "expired"
      case UnknownCard => "unknown_card"
    }
  }

  /** An `access_logs` row as inserted. */
  datatype AccessLogRow = AccessLogRow(
    athleteId: Option<string>,
    cardUid: string,
    ts: string,
    result: AccessResult,
    note: string)

  /** Status of a validation, as carried in a response and in a card-log
      event. */
  datatype EventStatus = StatusOk | StatusUnrecognized | StatusValidationError | StatusError
  {
    function Label(): string {
      match this
      case StatusOk => "OK"
      case StatusUnrecognized => "UNRECOGNIZED"
      case StatusValidationError => "VALIDATION_ERROR"
      case StatusError => "ERROR"
    }
  }

  /** Failures the data store may report: `unconfigured` when the store's
      URL or service key is missing from the environment, then one entry per
      query the pipeline makes, `None` for a query that succeeds. */
  datatype StoreFaults = StoreFaults(
    unconfigured: bool,
    cardQuery: Option<string>,
    membershipQuery: Option<string>,
    insert: Option<string>)

  /** The error raised when the store is not configured. */
  const MISSING_CONFIG: string := "Faltan NEXT_PUBLIC_SUPABASE_URL o SUPABASE_SERVICE_ROLE_KEY"

  /** The `YYYY-MM-DD` text the store returns for a date column. */
  function DayText(day: int): string {
    DateText(CivilFromDays(day))
  }

  /** The error the single-row query reports when more than one row matches. */
  const MULTIPLE_ROWS: string := "JSON object requested, multiple (or no) rows returned"

  // ---------------------------------------------------------------- today

  /** `todayUTCDateOnly`: the day number of the UTC calendar day holding
      the instant `now` (milliseconds since the epoch). */
  function TodayUtc(now: int): (day: int)
    ensures day * MS_PER_DAY <= now < day * MS_PER_DAY + MS_PER_DAY
  {
    now / MS_PER_DAY
  }

  // ---------------------------------------------------------------- card lookup

  /** The cards with the given uid that are active, in table order. */
  function ActiveCardsWithUid(cards: seq<Card>, uid: string): (r: seq<Card>)
    ensures forall c :: c in r <==> c in cards && c.uid == uid && c.active
    ensures |r| <= |cards|
  {
    if cards == [] then []
    else
      (if cards[0].uid == uid && cards[0].active then [cards[0]] else [])
      + ActiveCardsWithUid(cards[1..], uid)
  }

  /** `.eq('uid', uid).eq('active', true).maybeSingle()`: no match is a
      null card, one match is that card, more than one is an error. */
  function FindActiveCard(cards: seq<Card>, uid: string): (r: Result<Option<Card>, string>)
    ensures r == Ok(None) <==> forall c :: c in cards ==> !(c.uid == uid && c.active)
    ensures r.Ok? && r.value.Some? ==> r.value.value in cards && r.value.value.uid == uid && r.value.value.active
    ensures r.Err? ==> r.error == MULTIPLE_ROWS
    ensures r.Err? <==> |ActiveCardsWithUid(cards, uid)| >= 2
    ensures |ActiveCardsWithUid(cards, uid)| == 1 ==> r == Ok(Some(ActiveCardsWithUid(cards, uid)[0]))
  {
    var matches := ActiveCardsWithUid(cards, uid);
    if |matches| == 0 then Ok(None)
    else if |matches| == 1 then
      assert matches[0] in matches;
      Ok(Some(matches[0]))
    else
      assert matches[0] in matches;
      Err(MULTIPLE_ROWS)
  }

  /** When one position of the table holds an active card with the uid,
      and no other does, that card is the only match. */
  lemma {:induction false} ActiveCardsSingle(cards: seq<Card>, uid: string, i: int)
    requires 0 <= i < |cards| && cards[i].uid == uid && cards[i].active
    requires forall j :: 0 <= j < |cards| && j != i ==> !(cards[j].uid == uid && cards[j].active)
    ensures ActiveCardsWithUid(cards, uid) == [cards[i]]
  {
    if i == 0 {
      forall c | c in cards[1..] ensures !(c.uid == uid && c.active) {
        var k :| 0 <= k < |cards[1..]| && cards[1..][k] == c;
        assert cards[k + 1] == c;
      }
      assert FindActiveCard(cards[1..], uid) == Ok(None);
    } else {
      forall j | 0 <= j < |cards[1..]| && j != i - 1
        ensures !(cards[1..][j].uid == uid && cards[1..][j].active)
      {
        assert cards[1..][j] == cards[j + 1];
      }
      ActiveCardsSingle(cards[1..], uid, i - 1);
    }
  }

  /** `maybeSingle` with exactly one active match finds that card. */
  lemma OneActiveCardFound(cards: seq<Card>, uid: string, i: int)
    requires 0 <= i < |cards| && cards[i].uid == uid && cards[i].active
    requires forall j :: 0 <= j < |cards| && j != i ==> !(cards[j].uid == uid && cards[j].active)
    ensures FindActiveCard(cards, uid) == Ok(Some(cards[i]))
  {
    ActiveCardsSingle(cards, uid, i);
  }

  /** Two distinct active cards with the same uid make the lookup fail. */
  lemma DuplicateCardsFail(cards: seq<Card>, uid: string, i: int, j: int)
    requires 0 <= i < |cards| && 0 <= j < |cards|
    requires cards[i] != cards[j]
    requires cards[i].uid == uid && cards[i].active && cards[j].uid == uid && cards[j].active
    ensures FindActiveCard(cards, uid) == Err(MULTIPLE_ROWS)
  {
    var matches := ActiveCardsWithUid(cards, uid);
    assert cards[i] in matches && cards[j] in matches;
  }

  /** `.eq('athlete_id', id)` over the memberships table, in table order. */
  function MembershipsOf(table: seq<Membership>, athleteId: string): (r: seq<Membership>)
    ensures forall m :: m in r <==> m in table && m.athleteId == athleteId
  {
    if table == [] then []
    else
      (if table[0].athleteId == athleteId then [table[0]] else [])
      + MembershipsOf(table[1..], athleteId)
  }

  // ---------------------------------------------------------------- ordering

  /** The sort key of the engine: the start date, or the epoch when absent. */
  function StartKey(m: Membership): int {
    m.start.GetOr(0)
  }

  predicate SortedByStartDesc(s: seq<Membership>) {
    forall i, j :: 0 <= i < j < |s| ==> StartKey(s[i]) >= StartKey(s[j])
  }

  /** Places `m` before the first element whose start is not later, so an
      element keeps its place ahead of equal keys that followed it. */
  function InsertByStart(m: Membership, s: seq<Membership>): (r: seq<Membership>)
    ensures |r| == |s| + 1
  {
    if s == [] || StartKey(m) >= StartKey(s[0]) then [m] + s
    else [s[0]] + InsertByStart(m, s[1..])
  }

  /** The stable sort by start date, latest first (`slice().sort(...)`). */
  function SortByStartDesc(s: seq<Membership>): (r: seq<Membership>)
    ensures |r| == |s|
  {
    if s == [] then [] else InsertByStart(s[0], SortByStartDesc(s[1..]))
  }

  lemma {:induction false} InsertByStartPermutes(m: Membership, s: seq<Membership>)
    ensures multiset(InsertByStart(m, s)) == multiset(s) + multiset{m}
  {
    if s == [] || StartKey(m) >= StartKey(s[0]) {
    } else {
      InsertByStartPermutes(m, s[1..]);
      assert s == [s[0]] + s[1..];
    }
  }

  /** Inserting keeps every key under a bound that covers all of them. */
  lemma {:induction false} InsertByStartBounded(m: Membership, s: seq<Membership>, bound: int)
    requires StartKey(m) <= bound
    requires forall k :: 0 <= k < |s| ==> StartKey(s[k]) <= bound
    ensures forall k :: 0 <= k < |s| + 1 ==> StartKey(InsertByStart(m, s)[k]) <= bound
  {
    if s == [] || StartKey(m) >= StartKey(s[0]) {
    } else {
      InsertByStartBounded(m, s[1..], bound);
    }
  }

  lemma {:induction false} InsertByStartSorted(m: Membership, s: seq<Membership>)
    requires SortedByStartDesc(s)
    ensures SortedByStartDesc(InsertByStart(m, s))
  {
    if s == [] || StartKey(m) >= StartKey(s[0]) {
    } else {
      InsertByStartSorted(m, s[1..]);
      InsertByStartBounded(m, s[1..], StartKey(s[0]));
    }
  }

  /** The sorted list is ordered by start date, latest first, and holds
      exactly the memberships it was given. */
  lemma {:induction false} SortByStartDescCorrect(s: seq<Membership>)
    ensures SortedByStartDesc(SortByStartDesc(s))
    ensures multiset(SortByStartDesc(s)) == multiset(s)
  {
    if s != [] {
      SortByStartDescCorrect(s[1..]);
      InsertByStartSorted(s[0], SortByStartDesc(s[1..]));
      InsertByStartPermutes(s[0], SortByStartDesc(s[1..]));
      assert s == [s[0]] + s[1..];
    }
  }

  /** Sorting keeps exactly the same elements. */
  lemma SortByStartDescSameElements(s: seq<Membership>)
    ensures forall m :: m in SortByStartDesc(s) <==> m in s
  {
    SortByStartDescCorrect(s);
    forall m ensures m in SortByStartDesc(s) <==> m in s {
      assert m in SortByStartDesc(s) <==> m in multiset(SortByStartDesc(s));
      assert m in s <==> m in multiset(s);
    }
  }

  // ---------------------------------------------------------------- choosing the latest

  /** Index of the first element with the greatest key: element 0 of a
      stable sort by that key, latest first. */
  function FirstMax(s: seq<Membership>, key: Membership -> int): (i: nat)
    requires |s| > 0
    ensures i < |s|
    ensures forall j :: 0 <= j < |s| ==> key(s[j]) <= key(s[i])
    ensures forall j :: 0 <= j < i ==> key(s[j]) < key(s[i])
  {
    if |s| == 1 then 0
    else
      var k := FirstMax(s[1..], key);
      assert forall j :: 1 <= j < |s| ==> s[j] == s[1..][j - 1];
      if key(s[0]) >= key(s[1..][k]) then 0 else k + 1
  }

  // ---------------------------------------------------------------- list helpers

  /** `filter`: the elements satisfying `p`, in order. */
  function Filter(s: seq<Membership>, p: Membership -> bool): (r: seq<Membership>)
    ensures forall m :: m in r <==> m in s && p(m)
    ensures |r| <= |s|
  {
    if s == [] then []
    else (if p(s[0]) then [s[0]] else []) + Filter(s[1..], p)
  }

  /** Nothing passes the filter when no element satisfies `p`. */
  lemma {:induction false} FilterNone(s: seq<Membership>, p: Membership -> bool)
    requires forall m :: m in s ==> !p(m)
    ensures Filter(s, p) == []
  {
    if s != [] {
      assert s[0] in s;
      FilterNone(s[1..], p);
    }
  }

  /** Filtering a list sorted by start date leaves it sorted. */
  lemma {:induction false} FilterSorted(s: seq<Membership>, p: Membership -> bool)
    requires SortedByStartDesc(s)
    ensures SortedByStartDesc(Filter(s, p))
  {
    if s != [] {
      FilterSorted(s[1..], p);
      var t := Filter(s[1..], p);
      forall k | 0 <= k < |t| ensures StartKey(s[0]) >= StartKey(t[k]) {
        assert t[k] in s[1..];
      }
    }
  }

  /** `findIndex`: the index of the first element satisfying `p`. */
  function FindFirst(s: seq<Membership>, p: Membership -> bool): (r: Option<nat>)
    ensures r.Some? ==> r.value < |s| && p(s[r.value]) && forall j :: 0 <= j < r.value ==> !p(s[j])
    ensures r.None? <==> forall m :: m in s ==> !p(m)
  {
    if s == [] then None
    else if p(s[0]) then Some(0)
    else
      match FindFirst(s[1..], p)
      case None => None
      case Some(i) => Some(i + 1)
  }

  // ---------------------------------------------------------------- the log table

  /** The `access_logs` table: rows are only ever appended. */
  class AccessLogTable {
    var rows: seq<AccessLogRow>

    constructor()
      ensures rows == []
    {
      rows := [];
    }

    /** `insert(row).select('id, ts').single()`: appends the row and yields
        its id, or reports the store's failure and changes nothing. */
    method Insert(row: AccessLogRow, failure: Option<string>) returns (r: Result<nat, string>)
      modifies this
      ensures failure.Some? ==> r == Err(failure.value) && rows == old(rows)
      ensures failure.None? ==> r == Ok(|old(rows)|) && rows == old(rows) + [row]
    {
      if failure.Some? {
        return Err(failure.value);
      }
      r := Ok(|rows|);
      rows := rows + [row];
    }
  }
}
