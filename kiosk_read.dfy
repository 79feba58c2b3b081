/** The kiosk's card-read endpoint (app/api/kiosk/read/route.ts): log the
    read, reject an empty or malformed uid, otherwise canonicalise it and
    ask the access engine, logging the validation outcome. */
module KioskRead {
  import opened Wrappers
  import opened Text
  import opened AccessModel
  import opened CardValidation
  import opened AccessEngine
  import opened CardLogger
  import opened DailyLog

  const EMPTY_UID_ERROR: string := "cardUID requerido"
  const DIGITS_ONLY_ERROR: string := "El número de tarjeta debe contener solo dígitos."

  /** The message for a uid of the wrong length, naming the expected one. */
  function LengthError(): string {
    "El número de tarjeta debe tener " + NatToString(CARD_UID_LENGTH) + " dígitos."
  }

  /** The endpoint's answers. */
  datatype KioskReply =
    | Rejected(code: int, error: string, uid: string, rawUid: string, reason: string, expectedLength: nat)
    | Answered(validation: AccessValidation)
    | Failed(error: string, uid: string, rawUid: string)
  {
    /** The HTTP status of the reply. */
    function Status(): int {
      match this
      case Rejected(code, _, _, _, _, _) => code
      case Answered(_) => 200
      case Failed(_, _, _) => 500
    }
  }

  /** What the two checks make of the normalised uid. */
  datatype Screening = Empty | Malformed(issue: ValidationIssue) | WellFormed(canonical: string)

  /** The empty check, then the format check; only a well-formed uid is
      canonicalised. */
  function Screen(normalized: string): (s: Screening)
    ensures s.Empty? <==> normalized == ""
    ensures s.WellFormed? <==> ValidateCardUIDFormat(normalized) == None
    ensures s.Malformed? ==> s.issue != EmptyValue && ValidateCardUIDFormat(normalized) == Some(s.issue)
    ensures s.WellFormed? ==> s.canonical == CanonicalizeCardUID(normalized) && s.canonical != ""
  {
    if normalized == "" then Empty
    else
      match ValidateCardUIDFormat(normalized)
      case Some(issue) => Malformed(issue)
      case None =>
        WellFormedCanonical(normalized);
        WellFormed(CanonicalizeCardUID(normalized))
  }

  /** The reply and the two card events of a request whose body carries
      `rawUid`; `engine` is what the access engine answers, consulted only
      for a well-formed uid. */
  datatype Outcome = Outcome(reply: KioskReply, events: seq<CardEvent>)

  /** The READ event: the normalised uid, or the raw one when that is
      empty, marked as a validation error. */
  function ReadEvent(rawUid: string): CardEvent {
    var normalized := NormalizeCardUID(Some(rawUid));
    var cardForLog := if normalized != "" then normalized else rawUid;
    CardEvent(Some(cardForLog), Read,
              if normalized != "" then StatusOk else StatusValidationError,
              if normalized != "" then "input_received" else "missing_card_uid")
  }

  function KioskOutcome(rawUid: string, engine: Result<AccessValidation, string>): (o: Outcome)
    ensures |o.events| == 2 && o.events[0] == ReadEvent(rawUid)
  {
    var normalized := NormalizeCardUID(Some(rawUid));
    var cardForLog := if normalized != "" then normalized else rawUid;
    var read := ReadEvent(rawUid);
    match Screen(normalized)
    case Empty =>
      Outcome(Rejected(400, EMPTY_UID_ERROR, normalized, rawUid, "empty_value", CARD_UID_LENGTH),
              [read, CardEvent(Some(cardForLog), Validate, StatusValidationError, "empty_value")])
    case Malformed(issue) =>
      var message := if issue == InvalidCharacters then DIGITS_ONLY_ERROR else LengthError();
      Outcome(Rejected(422, message, normalized, rawUid, issue.Reason(), CARD_UID_LENGTH),
              [read, CardEvent(Some(normalized), Validate, StatusValidationError, issue.Reason())])
    case WellFormed(_) =>
      match engine
      case Ok(v) =>
        var status := if v.validation.status == StatusUnrecognized || v.result == UnknownCard
                      then StatusUnrecognized else StatusOk;
        Outcome(Answered(v), [read, CardEvent(Some(v.uid), Validate, status, v.validation.reason)])
      case Err(message) =>
        Outcome(Failed(message, normalized, rawUid),
                [read, CardEvent(Some(normalized), Validate, StatusError, message)])
  }

  /** Both events are always written, READ first; the reply is 400 for an
      empty uid, 422 for a malformed one, and otherwise the engine's answer
      or, when the engine fails, 500. */
  lemma KioskOutcomeCases(rawUid: string, engine: Result<AccessValidation, string>)
    ensures var o := KioskOutcome(rawUid, engine);
            && (|o.events| == 2 && o.events[0].action == Read && o.events[1].action == Validate)
            && (o.events[0].status == (if Trim(rawUid) == "" then StatusValidationError else StatusOk))
            && (o.reply.Status() == 400 <==> Trim(rawUid) == "")
            && (o.reply.Status() == 422 <==> Screen(Trim(rawUid)).Malformed?)
            && (o.reply.Status() == 200 <==> Screen(Trim(rawUid)).WellFormed? && engine.Ok?)
            && (o.reply.Status() == 500 <==> Screen(Trim(rawUid)).WellFormed? && engine.Err?)
            && (o.reply.Answered? ==> o.reply.validation == engine.value)
            && (o.reply.Rejected? ==>
                  o.reply.expectedLength == CARD_UID_LENGTH && o.events[1].status == StatusValidationError)
            && (o.reply.Status() == 422 ==>
                  && o.reply.reason == Screen(Trim(rawUid)).issue.Reason()
                  && o.reply.error == (if Screen(Trim(rawUid)).issue == InvalidCharacters then DIGITS_ONLY_ERROR else LengthError()))
            && (o.reply.Status() == 400 ==> o.reply.reason == "empty_value" && o.reply.error == EMPTY_UID_ERROR)
            && (o.reply.Answered? ==>
                  (o.events[1].status == StatusUnrecognized
                   <==> engine.value.validation.status == StatusUnrecognized || engine.value.result == UnknownCard))
            && (o.reply.Failed? ==> o.events[1].status == StatusError && o.events[1].details == engine.error)
  {
  }

  /** With the engine's own reply, the validation event is UNRECOGNIZED
      exactly for an unknown card, and the engine sees the canonical uid. */
  lemma EngineEvent(rawUid: string, cards: seq<Card>, table: seq<Membership>, now: int, stamp: string,
                    faults: StoreFaults, nextId: nat)
    requires Screen(Trim(rawUid)).WellFormed?
    ensures var n := Trim(rawUid);
            var engine := Reply(cards, table, CanonicalizeCardUID(n), rawUid, Some(n), now, stamp, faults, nextId);
            var o := KioskOutcome(rawUid, engine);
            && (o.reply.Answered? ==>
                  && (o.events[1].status == StatusUnrecognized <==> o.reply.validation.result == UnknownCard)
                  && o.events[1].card == Some(n)
                  && AppendedRows(cards, table, CanonicalizeCardUID(n), now, stamp, faults)[0].cardUid
                     == Screen(n).canonical)
  {
    var n := Trim(rawUid);
    var engine := Reply(cards, table, CanonicalizeCardUID(n), rawUid, Some(n), now, stamp, faults, nextId);
    if engine.Ok? {
      ReplyMatchesRow(cards, table, CanonicalizeCardUID(n), rawUid, Some(n), now, stamp, faults, nextId);
    }
  }

  /** `POST`. `readAt` and `validateAt` are the local times at which the
      two card events are written; `now` and `stamp` are the engine's
      clock readings. */
  method Post(cardUid: Option<string>, cards: seq<Card>, table: seq<Membership>, now: int, stamp: string,
              faults: StoreFaults, log: AccessLogTable, cardLog: LogDirectory, logsEnabled: bool,
              readAt: int, validateAt: int)
    returns (reply: KioskReply)
    modifies log, cardLog
    ensures var raw := cardUid.GetOr("");
            var n := Trim(raw);
            var o := KioskOutcome(raw, Reply(cards, table, CanonicalizeCardUID(n), raw, Some(n), now, stamp, faults,
                                             |old(log.rows)|));
            && reply == o.reply
            && cardLog.files == Logged(Logged(old(cardLog.files), logsEnabled, readAt, o.events[0]),
                                       logsEnabled, validateAt, o.events[1])
            && log.rows == old(log.rows)
                           + (if Screen(n).WellFormed?
                              then AppendedRows(cards, table, CanonicalizeCardUID(n), now, stamp, faults)
                              else [])
  {
    var rawUid := cardUid.GetOr("");
    var normalized := NormalizeCardUID(Some(rawUid));
    assert normalized == Trim(rawUid);
    LogCardEvent(cardLog, logsEnabled, readAt, ReadEvent(rawUid));
    if Screen(normalized).WellFormed? {
      reply := AskEngine(rawUid, normalized, cards, table, now, stamp, faults, log, cardLog, logsEnabled, validateAt);
    } else {
      reply := Reject(rawUid, normalized, cardLog, logsEnabled, validateAt);
      EngineUnused(rawUid, Reply(cards, table, CanonicalizeCardUID(normalized), rawUid, Some(normalized), now, stamp,
                                 faults, |old(log.rows)|));
    }
  }

  /** A uid that fails a check never reaches the engine: its answer does
      not change the outcome. */
  lemma EngineUnused(rawUid: string, engine: Result<AccessValidation, string>)
    requires !Screen(Trim(rawUid)).WellFormed?
    ensures KioskOutcome(rawUid, engine) == KioskOutcome(rawUid, Err(""))
  {
  }

  /** The part of `POST` for a uid that fails a check: the validation
      event and a 400 or 422 reply; the engine is not asked, so its answer
      (here an arbitrary one) plays no part. */
  method Reject(rawUid: string, normalized: string, cardLog: LogDirectory, logsEnabled: bool, validateAt: int)
    returns (reply: KioskReply)
    requires normalized == Trim(rawUid) && !Screen(normalized).WellFormed?
    modifies cardLog
    ensures var o := KioskOutcome(rawUid, Err(""));
            && reply == o.reply
            && cardLog.files == Logged(old(cardLog.files), logsEnabled, validateAt, o.events[1])
  {
    var cardForLog := if normalized != "" then normalized else rawUid;
    if normalized == "" {
      LogCardEvent(cardLog, logsEnabled, validateAt,
                   CardEvent(Some(cardForLog), Validate, StatusValidationError, "empty_value"));
      reply := Rejected(400, EMPTY_UID_ERROR, normalized, rawUid, "empty_value", CARD_UID_LENGTH);
    } else {
      var formatIssue := ValidateCardUIDFormat(normalized);
      var message := if formatIssue.value == InvalidCharacters then DIGITS_ONLY_ERROR else LengthError();
      var detail := formatIssue.value.Reason();
      LogCardEvent(cardLog, logsEnabled, validateAt,
                   CardEvent(Some(normalized), Validate, StatusValidationError, detail));
      reply := Rejected(422, message, normalized, rawUid, detail, CARD_UID_LENGTH);
    }
  }

  /** The part of `POST` after both checks pass: the engine is asked with
      the canonical uid, and its answer or failure decides the reply and
      the validation event. */
  method AskEngine(rawUid: string, normalized: string, cards: seq<Card>, table: seq<Membership>, now: int,
                   stamp: string, faults: StoreFaults, log: AccessLogTable, cardLog: LogDirectory,
                   logsEnabled: bool, validateAt: int)
    returns (reply: KioskReply)
    requires normalized == Trim(rawUid) && Screen(normalized).WellFormed?
    modifies log, cardLog
    ensures var o := KioskOutcome(rawUid, Reply(cards, table, CanonicalizeCardUID(normalized), rawUid, Some(normalized),
                                                now, stamp, faults, |old(log.rows)|));
            && reply == o.reply
            && cardLog.files == Logged(old(cardLog.files), logsEnabled, validateAt, o.events[1])
            && log.rows == old(log.rows) + AppendedRows(cards, table, CanonicalizeCardUID(normalized), now, stamp, faults)
  {
    var canonicalUid := CanonicalizeCardUID(normalized);
    var response := ValidateCardAccess(cards, table, canonicalUid, rawUid, Some(normalized), now, stamp, faults, log);
    if response.Err? {
      LogCardEvent(cardLog, logsEnabled, validateAt,
                   CardEvent(Some(normalized), Validate, StatusError, response.error));
      return Failed(response.error, normalized, rawUid);
    }
    var v := response.value;
    var statusForLog := if v.validation.status == StatusUnrecognized || v.result == UnknownCard
                        then StatusUnrecognized else StatusOk;
    LogCardEvent(cardLog, logsEnabled, validateAt, CardEvent(Some(v.uid), Validate, statusForLog, v.validation.reason));
    reply := Answered(v);
  }
}
