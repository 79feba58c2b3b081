/** The membership status refresher (lib/memberships/status.ts): two bulk
    updates of the `memberships` table's status column for one effective
    date, first expiring lapsed memberships, then reactivating current
    ones, with the number of rows each update touched. The table is an
    array of rows updated in place. The effective date is the calendar day
    of the reference instant in the chosen time zone; that conversion is
    done by the host's time-zone database, outside the model, so the day
    number arrives as a parameter. */
module MembershipStatus {
  import opened Wrappers
  import opened AccessModel

  const ACTIVE: string := "active"
  const SOLD: string := "sold"
  const EXPIRED: string := "expired"

  /** The time zone: the caller's option, else the environment variable
      `MEMBERSHIP_STATUS_TIMEZONE`, else "UTC". An empty string is a
      given value, not a missing one. */
  function EffectiveTimeZone(option: Option<string>, env: Option<string>): (tz: string)
    ensures option.Some? ==> tz == option.value
    ensures option.None? && env.Some? ==> tz == env.value
    ensures option.None? && env.None? ==> tz == "UTC"
  {
    match option
    case Some(z) => z
    case None => env.GetOr("UTC")
  }

  // ---------------------------------------------------------------- the two updates, row by row

  /** Row filter of the expire update: status `active` or `sold` (exactly;
      a null status is not in the list) and an end date before today (a
      null end date compares as unknown and does not match). */
  predicate ToExpire(m: Membership, today: int) {
    m.status.Some? && (m.status.value == ACTIVE || m.status.value == SOLD)
    && m.end.Some? && m.end.value < today
  }

  /** Row filter of the activate update: status `expired` or `sold`, and
      start <= today <= end with both dates present. */
  predicate ToActivate(m: Membership, today: int) {
    m.status.Some? && (m.status.value == EXPIRED || m.status.value == SOLD)
    && m.start.Some? && m.end.Some? && m.start.value <= today <= m.end.value
  }

  /** A row after the expire update: only its status may change. */
  function Expire(m: Membership, today: int): (r: Membership)
    ensures ToExpire(m, today) ==> r == m.(status := Some(EXPIRED))
    ensures !ToExpire(m, today) ==> r == m
  {
    if ToExpire(m, today) then m.(status := Some(EXPIRED)) else m
  }

  /** A row after the activate update: only its status may change. */
  function Activate(m: Membership, today: int): (r: Membership)
    ensures ToActivate(m, today) ==> r == m.(status := Some(ACTIVE))
    ensures !ToActivate(m, today) ==> r == m
  {
    if ToActivate(m, today) then m.(status := Some(ACTIVE)) else m
  }

  /** The table after the expire update. */
  function ExpireAll(rows: seq<Membership>, today: int): (r: seq<Membership>)
    ensures |r| == |rows|
    ensures forall i :: 0 <= i < |rows| ==> r[i] == Expire(rows[i], today)
  {
    seq(|rows|, i requires 0 <= i < |rows| => Expire(rows[i], today))
  }

  /** The table after the activate update. */
  function ActivateAll(rows: seq<Membership>, today: int): (r: seq<Membership>)
    ensures |r| == |rows|
    ensures forall i :: 0 <= i < |rows| ==> r[i] == Activate(rows[i], today)
  {
    seq(|rows|, i requires 0 <= i < |rows| => Activate(rows[i], today))
  }

  /** The number of rows the expire update matches. */
  function CountToExpire(rows: seq<Membership>, today: int): (n: nat)
    ensures n <= |rows|
  {
    if rows == [] then 0
    else CountToExpire(rows[..|rows| - 1], today) + (if ToExpire(rows[|rows| - 1], today) then 1 else 0)
  }

  /** The number of rows the activate update matches. */
  function CountToActivate(rows: seq<Membership>, today: int): (n: nat)
    ensures n <= |rows|
  {
    if rows == [] then 0
    else CountToActivate(rows[..|rows| - 1], today) + (if ToActivate(rows[|rows| - 1], today) then 1 else 0)
  }

  /** No row matches: the count is zero exactly then. */
  lemma {:induction false} CountToExpireZero(rows: seq<Membership>, today: int)
    ensures CountToExpire(rows, today) == 0 <==> forall i :: 0 <= i < |rows| ==> !ToExpire(rows[i], today)
  {
    if rows != [] {
      var init := rows[..|rows| - 1];
      CountToExpireZero(init, today);
      assert forall i :: 0 <= i < |init| ==> init[i] == rows[i];
    }
  }

  lemma {:induction false} CountToActivateZero(rows: seq<Membership>, today: int)
    ensures CountToActivate(rows, today) == 0 <==> forall i :: 0 <= i < |rows| ==> !ToActivate(rows[i], today)
  {
    if rows != [] {
      var init := rows[..|rows| - 1];
      CountToActivateZero(init, today);
      assert forall i :: 0 <= i < |init| ==> init[i] == rows[i];
    }
  }

  // ---------------------------------------------------------------- facts about a run

  /** No row is changed by both updates: a row the expire update marks has
      ended before today, so the activate update does not match it. */
  lemma DisjointUpdates(rows: seq<Membership>, today: int, i: int)
    requires 0 <= i < |rows|
    ensures ToExpire(rows[i], today) ==> !ToActivate(ExpireAll(rows, today)[i], today)
    ensures ToActivate(ExpireAll(rows, today)[i], today) ==> ExpireAll(rows, today)[i] == rows[i]
  {
  }

  /** After a run no active or sold row has ended before today and no
      expired or sold row covers today. */
  lemma RunSettles(rows: seq<Membership>, today: int)
    ensures var after := ActivateAll(ExpireAll(rows, today), today);
            forall i :: 0 <= i < |after| ==> !ToExpire(after[i], today) && !ToActivate(after[i], today)
  {
  }

  /** A second run on the same date changes nothing and marks no row. */
  lemma RunIdempotent(rows: seq<Membership>, today: int)
    ensures var after := ActivateAll(ExpireAll(rows, today), today);
            && CountToExpire(after, today) == 0
            && ExpireAll(after, today) == after
            && CountToActivate(after, today) == 0
            && ActivateAll(after, today) == after
  {
    var after := ActivateAll(ExpireAll(rows, today), today);
    RunSettles(rows, today);
    CountToExpireZero(after, today);
    CountToActivateZero(after, today);
  }

  // ---------------------------------------------------------------- the updates in place

  /** `update({status: 'expired'}).lt('end_date', today).in('status',
      ['active', 'sold'])`: marks every matching row and reports how many. */
  method ExpireLapsed(rows: array<Membership>, today: int) returns (marked: nat)
    modifies rows
    ensures rows[..] == ExpireAll(old(rows[..]), today)
    ensures marked == CountToExpire(old(rows[..]), today)
  {
    ghost var before := rows[..];
    marked := 0;
    var i := 0;
    while i < rows.Length
      invariant 0 <= i <= rows.Length
      invariant forall j :: 0 <= j < i ==> rows[j] == Expire(before[j], today)
      invariant forall j :: i <= j < rows.Length ==> rows[j] == before[j]
      invariant marked == CountToExpire(before[..i], today)
    {
      assert before[..i + 1][..i] == before[..i];
      if ToExpire(rows[i], today) {
        rows[i] := rows[i].(status := Some(EXPIRED));
        marked := marked + 1;
      }
      i := i + 1;
    }
    assert before[..rows.Length] == before;
  }

  /** `update({status: 'active'}).lte('start_date', today).gte('end_date',
      today).in('status', ['expired', 'sold'])`. */
  method ActivateCurrent(rows: array<Membership>, today: int) returns (marked: nat)
    modifies rows
    ensures rows[..] == ActivateAll(old(rows[..]), today)
    ensures marked == CountToActivate(old(rows[..]), today)
  {
    ghost var before := rows[..];
    marked := 0;
    var i := 0;
    while i < rows.Length
      invariant 0 <= i <= rows.Length
      invariant forall j :: 0 <= j < i ==> rows[j] == Activate(before[j], today)
      invariant forall j :: i <= j < rows.Length ==> rows[j] == before[j]
      invariant marked == CountToActivate(before[..i], today)
    {
      assert before[..i + 1][..i] == before[..i];
      if ToActivate(rows[i], today) {
        rows[i] := rows[i].(status := Some(ACTIVE));
        marked := marked + 1;
      }
      i := i + 1;
    }
    assert before[..rows.Length] == before;
  }

  /** What a run reports. */
  datatype RefreshResult = RefreshResult(
    referenceDate: string,
    effectiveDate: string,
    timeZone: string,
    markedExpired: nat,
    markedActive: nat)

  /** The report of a run, or the error of the update that failed first. */
  function RefreshReply(rows: seq<Membership>, today: int, referenceIso: string, timeZone: string,
                        expireFault: Option<string>, activateFault: Option<string>)
    : (r: Result<RefreshResult, string>)
    ensures expireFault.Some? ==> r == Err(expireFault.value)
    ensures expireFault.None? && activateFault.Some? ==> r == Err(activateFault.value)
    ensures r.Ok? ==> r.value.effectiveDate == DayText(today) && r.value.timeZone == timeZone
                      && r.value.markedExpired + r.value.markedActive <= 2 * |rows|
    ensures expireFault.None? && activateFault.None? ==> r.Ok?
    ensures r.Ok? ==> r.value.referenceDate == referenceIso
                      && r.value.markedExpired == CountToExpire(rows, today)
                      && r.value.markedActive == CountToActivate(ExpireAll(rows, today), today)
  {
    if expireFault.Some? then Err(expireFault.value)
    else if activateFault.Some? then Err(activateFault.value)
    else
      var expired := ExpireAll(rows, today);
      Ok(RefreshResult(referenceIso, DayText(today), timeZone, CountToExpire(rows, today), CountToActivate(expired, today)))
  }

  /** The table after a run: a failed expire update leaves it as it was, a
      failed activate update leaves the expire update's work in place. */
  function RefreshedRows(rows: seq<Membership>, today: int, expireFault: Option<string>, activateFault: Option<string>)
    : (r: seq<Membership>)
    ensures |r| == |rows|
    ensures forall i :: 0 <= i < |rows| ==> r[i].(status := rows[i].status) == rows[i]
  {
    if expireFault.Some? then rows
    else if activateFault.Some? then ExpireAll(rows, today)
    else ActivateAll(ExpireAll(rows, today), today)
  }

  /** `refreshMembershipStatuses`. `referenceIso` is the reference
      instant's ISO text and `today` its day number in the time zone; a
      failing update (`expireFault`, `activateFault`) is raised and leaves
      the table as that update found it. The expire update runs first, so
      when it fails the activate update never runs. */
  method RefreshMembershipStatuses(rows: array<Membership>, today: int, referenceIso: string,
                                   timeZone: string, expireFault: Option<string>, activateFault: Option<string>)
    returns (r: Result<RefreshResult, string>)
    modifies rows
    ensures r == RefreshReply(old(rows[..]), today, referenceIso, timeZone, expireFault, activateFault)
    ensures rows[..] == RefreshedRows(old(rows[..]), today, expireFault, activateFault)
  {
    if expireFault.Some? {
      return Err(expireFault.value);
    }
    var markedExpired := ExpireLapsed(rows, today);
    if activateFault.Some? {
      return Err(activateFault.value);
    }
    var markedActive := ActivateCurrent(rows, today);
    r := Ok(RefreshResult(referenceIso, DayText(today), timeZone, markedExpired, markedActive));
  }
}
