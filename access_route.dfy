/** The older access endpoint, app/api/access/validate/route.ts: it cleans
    the uid with the legacy normaliser, considers only memberships whose
    status is exactly "active" (in table order, with no sold fallback),
    writes a descriptive note, appends one access-log row and answers with
    an HTTP status. */
module AccessRoute {
  import opened Wrappers
  import opened Text
  import opened AccessModel
  import LegacyCardUid
  import AccessEngine

  /** Status exactly "active", a missing one counting as "active"; no case
      folding. */
  predicate IsExactlyActive(m: Membership) {
    m.status.GetOr("active") == "active"
  }

  /** `toUTCDateOnly` of a stored date: a date column already denotes a
      UTC midnight, so truncating to the day keeps the day number, and an
      absent value stays absent. */
  function ToUtcDateOnly(value: Option<int>): Option<int> {
    value
  }

  predicate RouteCovers(m: Membership, today: int) {
    var start := ToUtcDateOnly(m.start);
    var end := ToUtcDateOnly(m.end);
    start.Some? && end.Some? && start.value <= today && today <= end.value
  }

  predicate RouteEnded(m: Membership, today: int) {
    var end := ToUtcDateOnly(m.end);
    end.Some? && end.value < today
  }

  datatype RouteDecision = RouteDecision(result: AccessResult, chosen: Option<Membership>)

  /** The cascade over the memberships in table order: the first covering
      active membership allows; otherwise one that ended before today
      makes it expired, reporting the latest end; otherwise denied. */
  function RouteDecide(memberships: seq<Membership>, today: int): (d: RouteDecision)
    ensures d.chosen.Some? ==> d.chosen.value in memberships
  {
    var active := Filter(memberships, IsExactlyActive);
    match FindFirst(active, m => RouteCovers(m, today))
    case Some(i) => RouteDecision(Allowed, Some(active[i]))
    case None =>
      var ended := Filter(active, m => RouteEnded(m, today));
      if |ended| > 0 then
        var last := ended[FirstMax(ended, AccessEngine.EndKey)];
        assert last in ended;
        RouteDecision(Expired, Some(last))
      else RouteDecision(Denied, None)
  }

  /** Allowed exactly when an exactly-active membership's date interval
      contains today, and the one reported is such a membership; expired
      exactly when none does but one ended before today, reporting one
      with the latest end; denied otherwise, reporting nothing. */
  lemma RouteDecideCases(memberships: seq<Membership>, today: int)
    ensures var d := RouteDecide(memberships, today);
            && (d.result == Allowed <==> exists m :: m in memberships && IsExactlyActive(m) && RouteCovers(m, today))
            && (d.result == Allowed ==> IsExactlyActive(d.chosen.value) && RouteCovers(d.chosen.value, today))
            && (d.result == Expired <==>
                  (forall m :: m in memberships && IsExactlyActive(m) ==> !RouteCovers(m, today))
                  && exists m :: m in memberships && IsExactlyActive(m) && RouteEnded(m, today))
            && (d.result == Expired ==>
                  && IsExactlyActive(d.chosen.value) && RouteEnded(d.chosen.value, today)
                  && forall m :: m in memberships && IsExactlyActive(m) && RouteEnded(m, today)
                                 ==> AccessEngine.EndKey(m) <= AccessEngine.EndKey(d.chosen.value))
            && (d.result == Denied <==> d.chosen.None?)
  {
    var active := Filter(memberships, IsExactlyActive);
    var ended := Filter(active, m => RouteEnded(m, today));
    if FindFirst(active, m => RouteCovers(m, today)).None? {
      if |ended| > 0 {
        var k := FirstMax(ended, AccessEngine.EndKey);
        forall m | m in memberships && IsExactlyActive(m) && RouteEnded(m, today)
          ensures AccessEngine.EndKey(m) <= AccessEngine.EndKey(ended[k])
        {
          assert m in ended;
        }
      } else {
        forall m | m in memberships && IsExactlyActive(m) ensures !RouteEnded(m, today) {
          assert m in active;
        }
      }
    }
  }

  /** A lower-case status is its own lower-casing. */
  predicate LowerCaseStatus(m: Membership) {
    m.status.None? || ToLower(m.status.value) == m.status.value
  }

  lemma LowerActive()
    ensures ToLower("active") == "active"
  {
    var t := ToLower("active");
    forall i | 0 <= i < 6 ensures t[i] == "active"[i] {
      assert 'a' <= "active"[i] <= 'z';
    }
  }

  /** Under a lower-case status other than "sold", the engine's status
      tests and the endpoint's exact test coincide. */
  lemma SameStatusTests(m: Membership)
    requires LowerCaseStatus(m) && m.status != Some("sold")
    ensures AccessEngine.IsActiveStatus(m) <==> IsExactlyActive(m)
    ensures !AccessEngine.IsSoldStatus(m)
  {
    if m.status.None? {
      LowerActive();
    }
  }

  /** The engine's status tests and the endpoint's, on every row. */
  predicate SameTests(memberships: seq<Membership>) {
    forall m :: m in memberships ==> (AccessEngine.IsActiveStatus(m) <==> IsExactlyActive(m)) && !AccessEngine.IsSoldStatus(m)
  }

  lemma AgreeWhenExpired(memberships: seq<Membership>, today: int)
    requires SameTests(memberships) && RouteDecide(memberships, today).result == Expired
    ensures AccessEngine.DecideFor(memberships, today).result == Expired
  {
    RouteDecideCases(memberships, today);
    AccessEngine.ExpiredByEndedMembership(memberships, today);
  }

  lemma AgreeWhenDenied(memberships: seq<Membership>, today: int)
    requires SameTests(memberships) && RouteDecide(memberships, today).result == Denied
    ensures AccessEngine.DecideFor(memberships, today).result == Denied
  {
    RouteDecideCases(memberships, today);
    AccessEngine.SoldFallback(memberships, today);
  }

  lemma AgreeOnAllowed(memberships: seq<Membership>, today: int)
    requires SameTests(memberships)
    ensures RouteDecide(memberships, today).result == Allowed <==> AccessEngine.DecideFor(memberships, today).result == Allowed
  {
    RouteDecideCases(memberships, today);
    AccessEngine.AllowedIffCovering(memberships, today);
  }

  /** When every status is lower-case and none is "sold", the endpoint and
      the engine reach the same result, whatever the order of the rows. */
  lemma AgreesWithEngine(memberships: seq<Membership>, today: int)
    requires forall m :: m in memberships ==> LowerCaseStatus(m) && m.status != Some("sold")
    ensures RouteDecide(memberships, today).result == AccessEngine.DecideFor(memberships, today).result
  {
    forall m | m in memberships
      ensures AccessEngine.IsActiveStatus(m) <==> IsExactlyActive(m)
      ensures !AccessEngine.IsSoldStatus(m)
    {
      SameStatusTests(m);
    }
    AgreeOnAllowed(memberships, today);
    var r := RouteDecide(memberships, today).result;
    assert r != UnknownCard by {
      RouteDecideCases(memberships, today);
    }
    if r == Expired {
      AgreeWhenExpired(memberships, today);
    } else if r == Denied {
      AgreeWhenDenied(memberships, today);
    }
  }

  // ---------------------------------------------------------------- notes

  const EMPTY_MARK: string := "(vacío)"
  const UID_REQUIRED: string := "cardUID requerido"
  const UNEXPECTED: string := "Unexpected error"

  /** A uid as shown in a note: the value, or "(vacío)" when it is empty. */
  function Shown(uid: string): (r: string)
    ensures r != ""
    ensures uid != "" ==> r == uid
  {
    if uid == "" then EMPTY_MARK else uid
  }

  /** The tail every note of a known card ends with. */
  const NORMALIZED_TAIL: string := ". UID normalizado: "

  /** The end date as a note shows it: the stored text, or "sin fecha". */
  function EndText(end: Option<int>): string {
    if end.Some? then DayText(end.value) else "sin fecha"
  }

  /** The note of each outcome. `plan` and `endText` describe the reported
      membership. */
  function NoteOf(result: AccessResult, rawTrimmed: string, cleaned: string, plan: Option<string>, endText: string): string {
    match result
    case UnknownCard =>
      "Tarjeta no registrada o inactiva. UID recibido: " + Shown(rawTrimmed)
      + " (normalizado: " + Shown(cleaned) + ")"
    case Allowed =>
      var planText := if plan.Some? && plan.value != "" then " (" + plan.value + ")" else "";
      "Acceso permitido. Membresía vigente" + planText + NORMALIZED_TAIL + Shown(cleaned)
    case Expired =>
      "Membresía expirada al " + endText + NORMALIZED_TAIL + Shown(cleaned)
    case Denied =>
      "Sin membresía vigente activa a la fecha" + NORMALIZED_TAIL + Shown(cleaned)
  }

  /** Every note of a known card ends with the normalised uid, shown as
      "(vacío)" when empty. */
  lemma NoteEndsWithUid(result: AccessResult, rawTrimmed: string, cleaned: string, plan: Option<string>, endText: string)
    returns (head: string)
    requires result != UnknownCard
    ensures NoteOf(result, rawTrimmed, cleaned, plan, endText) == head + NORMALIZED_TAIL + Shown(cleaned)
  {
    match result
    case Allowed =>
      var planText := if plan.Some? && plan.value != "" then " (" + plan.value + ")" else "";
      head := "Acceso permitido. Membresía vigente" + planText;
    case Expired =>
      head := "Membresía expirada al " + endText;
    case Denied =>
      head := "Sin membresía vigente activa a la fecha";
  }

  // ---------------------------------------------------------------- handler

  datatype RouteAthlete = RouteAthlete(id: string, name: Option<string>, photoUrl: Option<string>)

  datatype RouteMembership = RouteMembership(plan: Option<string>, end: Option<int>)

  datatype RouteBody =
    | Failure(error: string)
    | InsertFailure(error: string, result: AccessResult, uid: string)
    | Success(ok: bool, accessId: Option<nat>, ts: string, result: AccessResult, uid: string,
              athlete: Option<RouteAthlete>, membership: Option<RouteMembership>, note: string)

  datatype RouteResponse = RouteResponse(status: nat, body: RouteBody)

  /** What the endpoint decides before writing the row. */
  datatype RouteEvaluation = RouteEvaluation(
    result: AccessResult, note: string, athlete: Option<RouteAthlete>, membership: Option<RouteMembership>)

  function RouteAthleteOf(card: Card): RouteAthlete {
    match card.athlete
    case None => RouteAthlete(card.athleteId, None, None)
    case Some(a) => RouteAthlete(card.athleteId, a.name, a.photoUrl)
  }

  function RouteEvaluate(card: Option<Card>, memberships: seq<Membership>, today: int, rawTrimmed: string, cleaned: string)
    : RouteEvaluation
  {
    match card
    case None =>
      RouteEvaluation(UnknownCard, NoteOf(UnknownCard, rawTrimmed, cleaned, None, ""), None, None)
    case Some(c) =>
      var d := RouteDecide(memberships, today);
      var membership := if d.chosen.Some? then Some(RouteMembership(d.chosen.value.plan, d.chosen.value.end)) else None;
      var plan := if membership.Some? then membership.value.plan else None;
      var end := if membership.Some? then membership.value.end else None;
      RouteEvaluation(d.result, NoteOf(d.result, rawTrimmed, cleaned, plan, EndText(end)), Some(RouteAthleteOf(c)), membership)
  }

  /** The cleaned uid: leading zeros stripped, then trimmed, then
      upper-cased. */
  function CleanUid(raw: string): string {
    LegacyCardUid.NormalizeCardUID(raw)
  }

  /** `POST /api/access/validate`. `cardUid` is the body's field (absent
      when missing or when the body is not JSON). A missing store
      configuration or a failed query is answered 500 with its message;
      an empty cleaned uid is answered 400 before any query; a failed
      insert is answered 500 with the result and uid; otherwise 200. */
  method Post(
    cardUid: Option<string>, cards: seq<Card>, table: seq<Membership>, now: int, stamp: string,
    faults: StoreFaults, log: AccessLogTable)
    returns (resp: RouteResponse)
    modifies log
    ensures resp.status in {200, 400, 500}
    ensures resp.status == 200 <==> resp.body.Success?
    ensures resp.status != 200 ==> log.rows == old(log.rows)
    ensures faults.unconfigured ==> resp == RouteResponse(500, Failure(MISSING_CONFIG))
    ensures !faults.unconfigured && CleanUid(cardUid.GetOr("")) == "" ==>
              resp == RouteResponse(400, Failure(UID_REQUIRED))
    ensures !faults.unconfigured && CleanUid(cardUid.GetOr("")) != "" && faults.cardQuery.Some? ==>
              resp == RouteResponse(500, Failure(faults.cardQuery.value))
    ensures var cleaned := CleanUid(cardUid.GetOr(""));
            !faults.unconfigured && cleaned != "" && faults.cardQuery.None? && FindActiveCard(cards, cleaned).Err? ==>
              resp == RouteResponse(500, Failure(MULTIPLE_ROWS))
    ensures var cleaned := CleanUid(cardUid.GetOr(""));
            !faults.unconfigured && cleaned != "" && faults.cardQuery.None?
            && FindActiveCard(cards, cleaned).Ok? && FindActiveCard(cards, cleaned).value.Some?
            && faults.membershipQuery.Some? ==>
              resp == RouteResponse(500, Failure(faults.membershipQuery.value))
    ensures var raw := cardUid.GetOr("");
            var cleaned := CleanUid(raw);
            !faults.unconfigured && cleaned != "" && faults.cardQuery.None? && FindActiveCard(cards, cleaned).Ok?
            && (FindActiveCard(cards, cleaned).value.None? || faults.membershipQuery.None?)
            ==>
              var card := FindActiveCard(cards, cleaned).value;
              var mems := if card.Some? then MembershipsOf(table, card.value.athleteId) else [];
              var e := RouteEvaluate(card, mems, TodayUtc(now), Trim(raw), cleaned);
              var row := AccessLogRow(if e.athlete.Some? then Some(e.athlete.value.id) else None,
                                      cleaned, stamp, e.result, e.note);
              if faults.insert.Some? then
                resp == RouteResponse(500, InsertFailure(faults.insert.value, e.result, cleaned))
              else
                && log.rows == old(log.rows) + [row]
                && resp == RouteResponse(200, Success(e.result == Allowed, Some(|old(log.rows)|), stamp, e.result,
                                                      cleaned, e.athlete, e.membership, e.note))
  {
    if faults.unconfigured {
      return RouteResponse(500, Failure(MISSING_CONFIG));
    }
    var rawUid := cardUid.GetOr("");
    var rawTrimmed := Trim(rawUid);
    var cleaned := CleanUid(rawUid);
    if cleaned == "" {
      return RouteResponse(400, Failure(UID_REQUIRED));
    }
    var today := TodayUtc(now);

    if faults.cardQuery.Some? {
      return RouteResponse(500, Failure(faults.cardQuery.value));
    }
    var found := FindActiveCard(cards, cleaned);
    if found.Err? {
      return RouteResponse(500, Failure(found.error));
    }

    var result: AccessResult;
    var note := "";
    var athlete: Option<RouteAthlete> := None;
    var membership: Option<RouteMembership> := None;

    if found.value.None? {
      result := UnknownCard;
      note := NoteOf(UnknownCard, rawTrimmed, cleaned, None, "");
    } else {
      var card := found.value.value;
      athlete := Some(RouteAthleteOf(card));
      if faults.membershipQuery.Some? {
        return RouteResponse(500, Failure(faults.membershipQuery.value));
      }
      var d := RouteDecide(MembershipsOf(table, card.athleteId), today);
      result := d.result;
      if d.chosen.Some? {
        membership := Some(RouteMembership(d.chosen.value.plan, d.chosen.value.end));
      }
      var plan := if membership.Some? then membership.value.plan else None;
      var end := if membership.Some? then membership.value.end else None;
      note := NoteOf(result, rawTrimmed, cleaned, plan, EndText(end));
    }

    var athleteId := if athlete.Some? then Some(athlete.value.id) else None;
    var inserted := log.Insert(AccessLogRow(athleteId, cleaned, stamp, result, note), faults.insert);
    if inserted.Err? {
      return RouteResponse(500, InsertFailure(inserted.error, result, cleaned));
    }
    resp := RouteResponse(200, Success(result == Allowed, Some(inserted.value), stamp, result, cleaned,
                                       athlete, membership, note));
  }
}
