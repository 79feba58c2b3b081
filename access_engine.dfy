/** The access decision of lib/access/validateCardAccess.ts: look the card
    up, order the athlete's memberships by start date, decide between
    allowed, expired, denied and unknown_card, and append one row to the
    access log. */
module AccessEngine {
  import opened Wrappers
  import opened Text
  import opened AccessModel
  import CardValidation

  // ---------------------------------------------------------------- statuses

  /** A status compared lower-cased, a missing one counting as "active". */
  function NormalizeStatus(status: Option<string>): string {
    ToLower(status.GetOr("active"))
  }

  predicate IsActiveStatus(m: Membership) { NormalizeStatus(m.status) == "active" }

  predicate IsSoldStatus(m: Membership) { NormalizeStatus(m.status) == "sold" }

  /** Both dates present and `start <= today <= end`. */
  predicate Covers(m: Membership, today: int) {
    m.start.Some? && m.end.Some? && m.start.value <= today <= m.end.value
  }

  /** An end date strictly before today. */
  predicate EndedBefore(m: Membership, today: int) {
    m.end.Some? && m.end.value < today
  }

  /** The key ordering expired memberships: their end date. */
  function EndKey(m: Membership): int {
    m.end.GetOr(0)
  }

  /** The key ordering sold memberships: the end date, else the start
      date, else the epoch. */
  function SoldKey(m: Membership): int {
    if m.end.Some? then m.end.value else m.start.GetOr(0)
  }

  // ---------------------------------------------------------------- decision

  /** The membership echoed in a response; a missing status is shown as
      the default of the branch that chose it. */
  datatype MembershipView = MembershipView(plan: Option<string>, status: string, start: Option<int>, end: Option<int>)

  function ViewOf(m: Membership, defaultStatus: string): MembershipView {
    MembershipView(m.plan, m.status.GetOr(defaultStatus), m.start, m.end)
  }

  /** The outcome for a known card and the membership it reports. */
  datatype Decision = Decision(result: AccessResult, chosen: Option<Membership>, membership: Option<MembershipView>)

  /** The cascade over memberships already sorted by start date: the first
      covering active membership allows; otherwise an active membership
      that ended before today makes it expired (reporting the latest end);
      otherwise any sold membership makes it expired (reporting the latest
      by end, else start); otherwise access is denied. */
  function Decide(sorted: seq<Membership>, today: int): (d: Decision)
    ensures d.result != UnknownCard
    ensures d.chosen.Some? ==> d.chosen.value in sorted
    ensures d.membership.Some? <==> d.chosen.Some?
  {
    var active := Filter(sorted, IsActiveStatus);
    var sold := Filter(sorted, IsSoldStatus);
    match FindFirst(active, m => Covers(m, today))
    case Some(i) =>
      Decision(Allowed, Some(active[i]), Some(ViewOf(active[i], "active")))
    case None =>
      var expired := Filter(active, m => EndedBefore(m, today));
      if |expired| > 0 then
        var last := expired[FirstMax(expired, EndKey)];
        assert last in expired;
        Decision(Expired, Some(last), Some(ViewOf(last, "expired")))
      else if |sold| > 0 then
        var last := sold[FirstMax(sold, SoldKey)];
        assert last in sold;
        Decision(Expired, Some(last), Some(ViewOf(last, "sold")))
      else
        Decision(Denied, None, None)
  }

  /** The engine's decision over the memberships as fetched. */
  function DecideFor(memberships: seq<Membership>, today: int): Decision {
    Decide(SortByStartDesc(memberships), today)
  }

  // ---------------------------------------------------------------- decision lemmas

  /** In a list sorted by start date, the first element passing `p`
      starts no earlier than any other that passes. */
  lemma FirstFoundIsLatest(s: seq<Membership>, p: Membership -> bool, i: nat)
    requires SortedByStartDesc(s)
    requires FindFirst(s, p) == Some(i)
    ensures forall m :: m in s && p(m) ==> StartKey(m) <= StartKey(s[i])
  {
    forall m | m in s && p(m)
      ensures StartKey(m) <= StartKey(s[i])
    {
      var j :| 0 <= j < |s| && s[j] == m;
      FoundFirst(s, p, i, j);
    }
  }

  /** Nothing before the first element found passes `p`. */
  lemma FoundFirst(s: seq<Membership>, p: Membership -> bool, i: nat, j: nat)
    requires FindFirst(s, p) == Some(i)
    requires j < |s| && p(s[j])
    ensures i <= j && (i < j ==> SortedByStartDesc(s) ==> StartKey(s[i]) >= StartKey(s[j]))
  {
  }

  /** The allowing branch of the cascade, over memberships already sorted. */
  lemma DecideAllowed(sorted: seq<Membership>, today: int)
    requires SortedByStartDesc(sorted)
    ensures Decide(sorted, today).result == Allowed
        <==> exists m :: m in sorted && IsActiveStatus(m) && Covers(m, today)
    ensures var d := Decide(sorted, today);
            d.result == Allowed ==>
              && d.chosen.Some? && IsActiveStatus(d.chosen.value) && Covers(d.chosen.value, today)
              && d.membership == Some(ViewOf(d.chosen.value, "active"))
              && forall m :: m in sorted && IsActiveStatus(m) && Covers(m, today)
                             ==> StartKey(m) <= StartKey(d.chosen.value)
  {
    var active := Filter(sorted, IsActiveStatus);
    FilterSorted(sorted, IsActiveStatus);
    match FindFirst(active, m => Covers(m, today))
    case Some(i) =>
      FirstFoundIsLatest(active, m => Covers(m, today), i);
    case None =>
  }

  /** Access is allowed exactly when some active-status membership with
      both dates contains today; the one reported is such a membership,
      and none of them starts later. */
  lemma AllowedIffCovering(memberships: seq<Membership>, today: int)
    ensures DecideFor(memberships, today).result == Allowed
        <==> exists m :: m in memberships && IsActiveStatus(m) && Covers(m, today)
    ensures var d := DecideFor(memberships, today);
            d.result == Allowed ==>
              && d.chosen.Some? && d.chosen.value in memberships
              && IsActiveStatus(d.chosen.value) && Covers(d.chosen.value, today)
              && d.membership == Some(ViewOf(d.chosen.value, "active"))
              && forall m :: m in memberships && IsActiveStatus(m) && Covers(m, today)
                             ==> StartKey(m) <= StartKey(d.chosen.value)
  {
    SortByStartDescSameElements(memberships);
    SortByStartDescCorrect(memberships);
    DecideAllowed(SortByStartDesc(memberships), today);
  }

  /** With no covering membership, an active-status membership that ended
      before today makes the result expired and is reported: the one
      with the latest end. */
  lemma ExpiredByEndedMembership(memberships: seq<Membership>, today: int)
    requires forall m :: m in memberships && IsActiveStatus(m) ==> !Covers(m, today)
    requires exists m :: m in memberships && IsActiveStatus(m) && EndedBefore(m, today)
    ensures var d := DecideFor(memberships, today);
            && d.result == Expired
            && d.chosen.Some? && d.chosen.value in memberships
            && IsActiveStatus(d.chosen.value) && EndedBefore(d.chosen.value, today)
            && d.membership == Some(ViewOf(d.chosen.value, "expired"))
            && forall m :: m in memberships && IsActiveStatus(m) && EndedBefore(m, today)
                           ==> EndKey(m) <= EndKey(d.chosen.value)
  {
    var sorted := SortByStartDesc(memberships);
    SortByStartDescSameElements(memberships);
    var active := Filter(sorted, IsActiveStatus);
    assert FindFirst(active, m => Covers(m, today)).None?;
    var expired := Filter(active, m => EndedBefore(m, today));
    var w :| w in memberships && IsActiveStatus(w) && EndedBefore(w, today);
    assert w in expired;
    var k := FirstMax(expired, EndKey);
    forall m | m in memberships && IsActiveStatus(m) && EndedBefore(m, today)
      ensures EndKey(m) <= EndKey(expired[k])
    {
      assert m in expired;
    }
  }

  /** With neither a covering nor an ended active-status membership, a
      sold membership makes the result expired, reporting the latest by
      end date (else start date); with no sold membership either, access
      is denied and nothing is reported. */
  lemma SoldFallback(memberships: seq<Membership>, today: int)
    requires forall m :: m in memberships && IsActiveStatus(m) ==> !Covers(m, today) && !EndedBefore(m, today)
    ensures var d := DecideFor(memberships, today);
            (exists m :: m in memberships && IsSoldStatus(m)) ==>
              && d.result == Expired
              && d.chosen.Some? && d.chosen.value in memberships && IsSoldStatus(d.chosen.value)
              && d.membership == Some(ViewOf(d.chosen.value, "sold"))
              && forall m :: m in memberships && IsSoldStatus(m) ==> SoldKey(m) <= SoldKey(d.chosen.value)
    ensures var d := DecideFor(memberships, today);
            (forall m :: m in memberships ==> !IsSoldStatus(m)) ==>
              d.result == Denied && d.chosen == None && d.membership == None
  {
    var sorted := SortByStartDesc(memberships);
    SortByStartDescSameElements(memberships);
    var active := Filter(sorted, IsActiveStatus);
    var sold := Filter(sorted, IsSoldStatus);
    assert FindFirst(active, m => Covers(m, today)).None?;
    var expired := Filter(active, m => EndedBefore(m, today));
    FilterNone(active, m => EndedBefore(m, today));
    if exists m :: m in memberships && IsSoldStatus(m) {
      var w :| w in memberships && IsSoldStatus(w);
      assert w in sold;
      var k := FirstMax(sold, SoldKey);
      forall m | m in memberships && IsSoldStatus(m) ensures SoldKey(m) <= SoldKey(sold[k]) {
        assert m in sold;
      }
    } else {
      FilterNone(sorted, IsSoldStatus);
    }
  }

  /** A sold membership is never what allows access: the result is
      allowed only through an active-status membership, so memberships
      that are all sold give expired. */
  lemma SoldNeverAllows(memberships: seq<Membership>, today: int)
    requires memberships != []
    requires forall m :: m in memberships ==> IsSoldStatus(m)
    ensures DecideFor(memberships, today).result == Expired
  {
    AllowedIffCovering(memberships, today);
    SoldFallback(memberships, today);
    assert memberships[0] in memberships;
  }

  // ---------------------------------------------------------------- response

  /** The athlete as echoed in a response. */
  datatype AthleteView = AthleteView(id: string, name: Option<string>, email: Option<string>, phone: Option<string>, photoUrl: Option<string>)

  function AthleteViewOf(card: Card): AthleteView {
    match card.athlete
    case None => AthleteView(card.athleteId, None, None, None, None)
    case Some(a) => AthleteView(card.athleteId, a.name, a.email, a.phone, a.photoUrl)
  }

  datatype ValidationInfo = ValidationInfo(status: EventStatus, reason: string, expectedLength: nat)

  /** The note of an unknown card; every other outcome has an empty note. */
  const UNKNOWN_CARD_NOTE: string := "Tarjeta no registrada o inactiva"

  /** Everything decided before the log row is written. */
  datatype Evaluation = Evaluation(
    result: AccessResult,
    note: string,
    athlete: Option<AthleteView>,
    membership: Option<MembershipView>,
    memberships: seq<Membership>,
    validation: ValidationInfo)

  /** The outcome for a looked-up card (`None` when no active card has
      the uid) and the athlete's memberships as fetched. */
  function Evaluate(card: Option<Card>, memberships: seq<Membership>, today: int): Evaluation {
    match card
    case None =>
      Evaluation(UnknownCard, UNKNOWN_CARD_NOTE, None, None, [],
                 ValidationInfo(StatusUnrecognized, "not_found_in_db", CardValidation.CARD_UID_LENGTH))
    case Some(c) =>
      var d := DecideFor(memberships, today);
      Evaluation(d.result, "", Some(AthleteViewOf(c)), d.membership, SortByStartDesc(memberships),
                 ValidationInfo(StatusOk, "matched_in_db", CardValidation.CARD_UID_LENGTH))
  }

  /** The row written for an evaluation. */
  function LogRowOf(e: Evaluation, cardUid: string, ts: string): AccessLogRow {
    AccessLogRow(if e.athlete.Some? then Some(e.athlete.value.id) else None, cardUid, ts, e.result, e.note)
  }

  /** Every store step before the insert succeeds: the store is
      configured, the card query answers with at most one active card and,
      when a card was found, the membership query answers. */
  predicate StoreAnswers(cards: seq<Card>, cardUid: string, faults: StoreFaults) {
    && !faults.unconfigured
    && faults.cardQuery.None?
    && FindActiveCard(cards, cardUid).Ok?
    && (FindActiveCard(cards, cardUid).value.None? || faults.membershipQuery.None?)
  }

  /** The store's configuration check, then the two queries: the card (by uid, active only, at most one row) and,
      for a card that was found, its athlete's memberships. Each failure is raised with its own message, in that
      order. */
  function Lookup(cards: seq<Card>, table: seq<Membership>, cardUid: string, faults: StoreFaults)
    : (r: Result<(Option<Card>, seq<Membership>), string>)
    ensures r.Ok? <==> StoreAnswers(cards, cardUid, faults)
    ensures faults.unconfigured ==> r == Err(MISSING_CONFIG)
    ensures !faults.unconfigured && faults.cardQuery.Some? ==> r == Err(faults.cardQuery.value)
    ensures !faults.unconfigured && faults.cardQuery.None? && FindActiveCard(cards, cardUid).Err? ==>
              r == Err(MULTIPLE_ROWS)
    ensures !faults.unconfigured && faults.cardQuery.None? && FindActiveCard(cards, cardUid).Ok?
            && FindActiveCard(cards, cardUid).value.Some? && faults.membershipQuery.Some? ==>
              r == Err(faults.membershipQuery.value)
    ensures r.Ok? && r.value.0.None? ==> r.value.1 == [] && forall c :: c in cards ==> !(c.uid == cardUid && c.active)
    ensures r.Ok? && r.value.0.Some? ==>
              && r.value.0.value in cards && r.value.0.value.uid == cardUid && r.value.0.value.active
              && |ActiveCardsWithUid(cards, cardUid)| == 1
              && r.value.1 == MembershipsOf(table, r.value.0.value.athleteId)
  {
    if faults.unconfigured then Err(MISSING_CONFIG)
    else if faults.cardQuery.Some? then Err(faults.cardQuery.value)
    else
      match FindActiveCard(cards, cardUid)
      case Err(e) => Err(e)
      case Ok(None) => Ok((None, []))
      case Ok(Some(c)) =>
        if faults.membershipQuery.Some? then Err(faults.membershipQuery.value)
        else Ok((Some(c), MembershipsOf(table, c.athleteId)))
  }

  /** An unknown card reports no athlete, no membership, the fixed note
      and an UNRECOGNIZED/not_found_in_db validation; a known card reports
      its athlete, an empty note, the memberships sorted by start date and
      an OK/matched_in_db validation, and never unknown_card. */
  lemma EvaluateCases(card: Option<Card>, memberships: seq<Membership>, today: int)
    ensures var e := Evaluate(card, memberships, today);
            && (e.result == UnknownCard <==> card.None?)
            && (e.note != "" <==> e.result == UnknownCard)
            && (e.athlete.None? <==> card.None?)
            && (card.None? ==> e.membership.None? && e.memberships == []
                               && e.validation.status == StatusUnrecognized
                               && e.validation.reason == "not_found_in_db")
            && (card.Some? ==> e.athlete.value.id == card.value.athleteId
                               && SortedByStartDesc(e.memberships)
                               && multiset(e.memberships) == multiset(memberships)
                               && e.validation.status == StatusOk)
            && (e.membership.Some? ==> e.result != Denied)
  {
    SortByStartDescCorrect(memberships);
  }

  /** The log row names the athlete exactly when a card matched, and
      always carries the uid that was looked up. */
  lemma LogRowAthlete(card: Option<Card>, memberships: seq<Membership>, today: int, cardUid: string, ts: string)
    ensures var row := LogRowOf(Evaluate(card, memberships, today), cardUid, ts);
            && (row.athleteId.None? <==> card.None?)
            && (card.Some? ==> row.athleteId == Some(card.value.athleteId))
            && row.cardUid == cardUid
  {
  }

  /** The response of a successful validation. */
  datatype AccessValidation = AccessValidation(
    ok: bool,
    accessId: Option<nat>,
    ts: string,
    result: AccessResult,
    uid: string,
    rawUid: string,
    athlete: Option<AthleteView>,
    membership: Option<MembershipView>,
    memberships: seq<Membership>,
    note: string,
    validation: ValidationInfo)

  function ResponseOf(e: Evaluation, id: nat, ts: string, uid: string, rawUid: string): (v: AccessValidation)
    ensures v.ok <==> e.result == Allowed
  {
    AccessValidation(e.result == Allowed, Some(id), ts, e.result, uid, rawUid,
                     e.athlete, e.membership, e.memberships, e.note, e.validation)
  }

  /** The reply of `validateCardAccess` when the next log row would get id
      `nextId`: a lookup or insert failure is raised as an error, otherwise
      the evaluation is answered. */
  function Reply(cards: seq<Card>, table: seq<Membership>, cardUid: string, rawUid: string,
                 normalizedUid: Option<string>, now: int, stamp: string, faults: StoreFaults, nextId: nat)
    : (r: Result<AccessValidation, string>)
    ensures r.Ok? <==> StoreAnswers(cards, cardUid, faults) && faults.insert.None?
    ensures !StoreAnswers(cards, cardUid, faults) ==> r == Err(Lookup(cards, table, cardUid, faults).error)
    ensures StoreAnswers(cards, cardUid, faults) && faults.insert.Some? ==> r == Err(faults.insert.value)
    ensures r.Ok? ==> r.value.accessId == Some(nextId) && r.value.uid == normalizedUid.GetOr(cardUid)
    ensures r.Ok? ==> (r.value.ok <==> r.value.result == Allowed)
    ensures r.Ok? ==> (r.value.result == UnknownCard <==> FindActiveCard(cards, cardUid) == Ok(None))
    ensures r.Ok? && FindActiveCard(cards, cardUid).value.Some? ==>
              var c := FindActiveCard(cards, cardUid).value.value;
              r.value.result == DecideFor(MembershipsOf(table, c.athleteId), TodayUtc(now)).result
  {
    var found := Lookup(cards, table, cardUid, faults);
    if found.Err? then Err(found.error)
    else if faults.insert.Some? then Err(faults.insert.value)
    else Ok(ResponseOf(Evaluate(found.value.0, found.value.1, TodayUtc(now)), nextId, stamp,
                       normalizedUid.GetOr(cardUid), rawUid))
  }

  /** The rows `validateCardAccess` appends to the access log: one exactly
      when it answers. */
  function AppendedRows(cards: seq<Card>, table: seq<Membership>, cardUid: string, now: int, stamp: string,
                        faults: StoreFaults)
    : (rows: seq<AccessLogRow>)
    ensures |rows| <= 1
    ensures |rows| == 1 <==> StoreAnswers(cards, cardUid, faults) && faults.insert.None?
    ensures |rows| == 1 ==> rows[0].cardUid == cardUid && rows[0].ts == stamp
    ensures |rows| == 1 ==> (rows[0].result == UnknownCard <==> FindActiveCard(cards, cardUid) == Ok(None))
    ensures |rows| == 1 && FindActiveCard(cards, cardUid).value.Some? ==>
              var c := FindActiveCard(cards, cardUid).value.value;
              rows[0].athleteId == Some(c.athleteId)
              && rows[0].result == DecideFor(MembershipsOf(table, c.athleteId), TodayUtc(now)).result
  {
    var found := Lookup(cards, table, cardUid, faults);
    if found.Err? || faults.insert.Some? then []
    else [LogRowOf(Evaluate(found.value.0, found.value.1, TodayUtc(now)), cardUid, stamp)]
  }

  /** The store's failures are raised and never turned into a decision:
      missing configuration, a failed card query, a second active card
      with the uid and a failed membership query each give an error with
      its own message, and no row is written. */
  lemma QueryFaultsRaised(cards: seq<Card>, table: seq<Membership>, cardUid: string, rawUid: string,
                          normalizedUid: Option<string>, now: int, stamp: string, faults: StoreFaults, nextId: nat)
    ensures var r := Reply(cards, table, cardUid, rawUid, normalizedUid, now, stamp, faults, nextId);
            var rows := AppendedRows(cards, table, cardUid, now, stamp, faults);
            && (faults.unconfigured ==> r == Err(MISSING_CONFIG) && rows == [])
            && (!faults.unconfigured && faults.cardQuery.Some? ==> r == Err(faults.cardQuery.value) && rows == [])
            && (!faults.unconfigured && faults.cardQuery.None? && |ActiveCardsWithUid(cards, cardUid)| >= 2 ==>
                  r == Err(MULTIPLE_ROWS) && rows == [])
            && ((!faults.unconfigured && faults.cardQuery.None? && |ActiveCardsWithUid(cards, cardUid)| == 1
                 && faults.membershipQuery.Some?) ==> r == Err(faults.membershipQuery.value) && rows == [])
  {
  }

  /** A reply and its log row agree: same result, and the row names an
      athlete exactly when the reply does. */
  lemma ReplyMatchesRow(cards: seq<Card>, table: seq<Membership>, cardUid: string, rawUid: string,
                        normalizedUid: Option<string>, now: int, stamp: string, faults: StoreFaults, nextId: nat)
    requires Reply(cards, table, cardUid, rawUid, normalizedUid, now, stamp, faults, nextId).Ok?
    ensures var v := Reply(cards, table, cardUid, rawUid, normalizedUid, now, stamp, faults, nextId).value;
            var row := AppendedRows(cards, table, cardUid, now, stamp, faults)[0];
            && row.result == v.result
            && (row.athleteId.None? <==> v.athlete.None?)
            && (v.result == UnknownCard <==> v.validation.status == StatusUnrecognized)
  {
    var found := Lookup(cards, table, cardUid, faults);
    EvaluateCases(found.value.0, found.value.1, TodayUtc(now));
  }

  /** `validateCardAccess`. The clock is read twice, as `now` for today's
      date and as `stamp` for the row's timestamp. A query or insert
      failure is raised as an error and no decision is returned; otherwise
      exactly one row is appended and the response carries its id. */
  method ValidateCardAccess(
    cards: seq<Card>, table: seq<Membership>, cardUid: string, rawUid: string,
    normalizedUid: Option<string>, now: int, stamp: string, faults: StoreFaults,
    log: AccessLogTable)
    returns (r: Result<AccessValidation, string>)
    modifies log
    ensures r == Reply(cards, table, cardUid, rawUid, normalizedUid, now, stamp, faults, |old(log.rows)|)
    ensures log.rows == old(log.rows) + AppendedRows(cards, table, cardUid, now, stamp, faults)
  {
    var today := TodayUtc(now);
    var result: AccessResult;
    var note := "";
    var athlete: Option<AthleteView> := None;
    var membership: Option<MembershipView> := None;
    var memberships: seq<Membership> := [];
    var normalized := normalizedUid.GetOr(cardUid);
    var validation := ValidationInfo(StatusOk, "matched_in_db", CardValidation.CARD_UID_LENGTH);

    if faults.unconfigured {
      return Err(MISSING_CONFIG);
    }
    if faults.cardQuery.Some? {
      return Err(faults.cardQuery.value);
    }
    var found := FindActiveCard(cards, cardUid);
    if found.Err? {
      return Err(found.error);
    }
    if found.value.None? {
      result := UnknownCard;
      note := UNKNOWN_CARD_NOTE;
      validation := ValidationInfo(StatusUnrecognized, "not_found_in_db", CardValidation.CARD_UID_LENGTH);
    } else {
      var card := found.value.value;
      athlete := Some(AthleteViewOf(card));
      if faults.membershipQuery.Some? {
        return Err(faults.membershipQuery.value);
      }
      memberships := SortByStartDesc(MembershipsOf(table, card.athleteId));
      var decision := Decide(memberships, today);
      result := decision.result;
      membership := decision.membership;
    }

    var athleteId := if athlete.Some? then Some(athlete.value.id) else None;
    var inserted := log.Insert(AccessLogRow(athleteId, cardUid, stamp, result, note), faults.insert);
    if inserted.Err? {
      return Err(inserted.error);
    }
    r := Ok(AccessValidation(result == Allowed, Some(inserted.value), stamp, result, normalized, rawUid,
                             athlete, membership, memberships, note, validation));
  }
}
